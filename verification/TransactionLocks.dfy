/**
 The transactional reader/writer spinlocks of `transaction.h` and the release loop of
 `transaction.c`, as a transition system with one access to shared memory per step, for any
 number of transactions and locks.
 */
module TransactionLocks {

  // ----- State -----

  /** A lock word: the writing transaction (0 for none) and the announced readers. */
  datatype Word = Word(owner: nat, readers: nat)

  datatype Kind = Read | Write

  datatype Entry = Entry(lock: nat, kind: Kind)

  /** Where a transaction is inside a call. */
  datatype Pc =
    | Idle
    | WriteTest(lock: nat, upgrade: bool)   // about to test whether it already owns the lock
    | WriteSpin(lock: nat, upgrade: bool)   // retrying the compare-and-swap
    | WriteGot(lock: nat)                   // owns the word, about to list it
    | ReadWait(lock: nat)                   // announced, waiting for the writer to leave
    | ReadGot(lock: nat)                    // saw no writer, about to list it
    | Releasing(index: nat)                 // undoing the listed entries from `index` on

  datatype Tx = Dead | Live(id: nat, list: seq<Entry>, pc: Pc)

  datatype State = State(locks: seq<Word>, txs: seq<Tx>)

  const UINT16_MAX: nat := 65535

  /** The readers that the compare-and-swap of a write lock expects. */
  function Expected(upgrade: bool): nat { if upgrade then 1 else 0 }

  // ----- What a transaction holds -----

  /** The listed entries not undone yet. */
  function Held(tx: Tx): seq<Entry> {
    if tx.Dead? then []
    else if tx.pc.Releasing? && tx.pc.index <= |tx.list| then tx.list[tx.pc.index..]
    else tx.list
  }

  function Listed(tx: Tx, l: nat, k: Kind): nat { multiset(Held(tx))[Entry(l, k)] }

  /** The write locks held on `l`. */
  function Writes(tx: Tx, l: nat): nat {
    Listed(tx, l, Write) + (if tx.Live? && tx.pc == WriteGot(l) then 1 else 0)
  }

  /** The read locks granted on `l`. */
  function Grants(tx: Tx, l: nat): nat {
    Listed(tx, l, Read) + (if tx.Live? && tx.pc == ReadGot(l) then 1 else 0)
  }

  /** The read locks granted or waited for on `l`. */
  function Announced(tx: Tx, l: nat): nat {
    Grants(tx, l) + (if tx.Live? && tx.pc == ReadWait(l) then 1 else 0)
  }

  function TotalAnnounced(txs: seq<Tx>, l: nat): nat
    decreases |txs|
  {
    if txs == [] then 0 else TotalAnnounced(txs[..|txs| - 1], l) + Announced(txs[|txs| - 1], l)
  }

  // ----- Steps -----

  datatype Step =
    | Acquire(id: nat)
    | CallWrite(lock: nat, upgrade: bool)
    | TestOwner
    | CompareAndSwap
    | GiveUpWrite
    | ListWrite
    | ListWriteFails
    | CallRead(lock: nat)
    | PollWriter
    | GiveUpRead
    | ListRead
    | ListReadFails
    | CallRelease
    | ReleaseOne
    | Finish

  predicate Enabled(s: State, t: nat, step: Step)
    requires t < |s.txs|
  {
    var tx := s.txs[t];
    match step
    case Acquire(id) => tx.Dead? && id != 0
    case CallWrite(l, _) => tx.Live? && tx.pc.Idle? && l < |s.locks|
    case TestOwner => tx.Live? && tx.pc.WriteTest? && tx.pc.lock < |s.locks|
    case CompareAndSwap => tx.Live? && tx.pc.WriteSpin? && tx.pc.lock < |s.locks|
    case GiveUpWrite => tx.Live? && tx.pc.WriteSpin?
    case ListWrite => tx.Live? && tx.pc.WriteGot?
    case ListWriteFails => tx.Live? && tx.pc.WriteGot? && tx.pc.lock < |s.locks|
    case CallRead(l) => tx.Live? && tx.pc.Idle? && l < |s.locks|
    case PollWriter => tx.Live? && tx.pc.ReadWait? && tx.pc.lock < |s.locks|
    case GiveUpRead => tx.Live? && tx.pc.ReadWait? && tx.pc.lock < |s.locks|
    case ListRead => tx.Live? && tx.pc.ReadGot?
    case ListReadFails => tx.Live? && tx.pc.ReadGot? && tx.pc.lock < |s.locks|
    case CallRelease => tx.Live? && tx.pc.Idle?
    case ReleaseOne =>
      && tx.Live? && tx.pc.Releasing? && tx.pc.index < |tx.list|
      && tx.list[tx.pc.index].lock < |s.locks|
    case Finish => tx.Live? && tx.pc.Releasing? && tx.pc.index == |tx.list|
  }

  function Unlock(w: Word): Word { w.(owner := 0) }

  function Join(w: Word): Word { w.(readers := (w.readers + 1) % (UINT16_MAX + 1)) }

  function Leave(w: Word): Word { w.(readers := (w.readers + UINT16_MAX) % (UINT16_MAX + 1)) }

  /** The transaction after its step. */
  function Moved(s: State, t: nat, step: Step): Tx
    requires t < |s.txs| && Enabled(s, t, step)
  {
    var tx := s.txs[t];
    match step
    case Acquire(id) => Live(id, [], Idle)
    case CallWrite(l, upgrade) => tx.(pc := WriteTest(l, upgrade))
    case TestOwner =>
      if s.locks[tx.pc.lock].owner == tx.id then tx.(pc := WriteGot(tx.pc.lock))
      else tx.(pc := WriteSpin(tx.pc.lock, tx.pc.upgrade))
    case CompareAndSwap =>
      if s.locks[tx.pc.lock] == Word(0, Expected(tx.pc.upgrade)) then tx.(pc := WriteGot(tx.pc.lock)) else tx
    case GiveUpWrite => tx.(pc := Idle)
    case ListWrite => tx.(list := tx.list + [Entry(tx.pc.lock, Write)], pc := Idle)
    case ListWriteFails => tx.(pc := Idle)
    case CallRead(l) => tx.(pc := ReadWait(l))
    case PollWriter => if s.locks[tx.pc.lock].owner == 0 then tx.(pc := ReadGot(tx.pc.lock)) else tx
    case GiveUpRead => tx.(pc := Idle)
    case ListRead => tx.(list := tx.list + [Entry(tx.pc.lock, Read)], pc := Idle)
    case ListReadFails => tx.(pc := Idle)
    case CallRelease => tx.(pc := Releasing(0))
    case ReleaseOne => tx.(pc := Releasing(tx.pc.index + 1))
    case Finish => Dead
  }

  /** The lock words after the step. */
  function Written(s: State, t: nat, step: Step): seq<Word>
    requires t < |s.txs| && Enabled(s, t, step)
  {
    var tx, locks := s.txs[t], s.locks;
    match step
    case CompareAndSwap =>
      var l := tx.pc.lock;
      if locks[l] == Word(0, Expected(tx.pc.upgrade)) then locks[l := Word(tx.id, Expected(tx.pc.upgrade))] else locks
    case ListWriteFails => locks[tx.pc.lock := Unlock(locks[tx.pc.lock])]
    case CallRead(l) => locks[l := Join(locks[l])]
    case GiveUpRead => locks[tx.pc.lock := Leave(locks[tx.pc.lock])]
    case ListReadFails => locks[tx.pc.lock := Leave(locks[tx.pc.lock])]
    case ReleaseOne =>
      var e := tx.list[tx.pc.index];
      locks[e.lock := if e.kind.Write? then Unlock(locks[e.lock]) else Leave(locks[e.lock])]
    case _ => locks
  }

  function Apply(s: State, t: nat, step: Step): State
    requires t < |s.txs| && Enabled(s, t, step)
  {
    State(Written(s, t, step), s.txs[t := Moved(s, t, step)])
  }

  /**
   The guards of the branches that go wrong: a new transaction gets an id in use, a write call
   finds its own transaction in the word, the swap of an upgrade takes the one announced reader for
   its own while another transaction has that read lock granted, or a reader wraps the reader count.
   */
  predicate Bad(s: State, t: nat, step: Step)
    requires t < |s.txs| && Enabled(s, t, step)
  {
    var tx := s.txs[t];
    match step
    case Acquire(id) => exists u :: 0 <= u < |s.txs| && s.txs[u].Live? && s.txs[u].id == id
    case TestOwner => s.locks[tx.pc.lock].owner == tx.id
    case CompareAndSwap => tx.pc.upgrade && s.locks[tx.pc.lock] == Word(0, 1) && GrantedElsewhere(s, t, tx.pc.lock)
    case CallRead(l) => s.locks[l].readers == UINT16_MAX
    case _ => false
  }

  predicate GrantedElsewhere(s: State, t: nat, l: nat) {
    exists u :: 0 <= u < |s.txs| && u != t && Grants(s.txs[u], l) > 0
  }

  ghost predicate Next(s: State, s': State) {
    exists t, step :: 0 <= t < |s.txs| && Enabled(s, t, step) && !Bad(s, t, step) && s' == Apply(s, t, step)
  }

  predicate Initial(s: State) {
    && (forall l :: 0 <= l < |s.locks| ==> s.locks[l] == Word(0, 0))
    && (forall t :: 0 <= t < |s.txs| ==> s.txs[t].Dead?)
  }

  // ----- The invariant -----

  ghost predicate WellFormed(s: State) {
    && (forall l :: 0 <= l < |s.locks| ==> s.locks[l].readers <= UINT16_MAX)
    && (forall t :: 0 <= t < |s.txs| && s.txs[t].Live? ==> WellFormedTx(s.txs[t], |s.locks|))
  }

  ghost predicate WellFormedTx(tx: Tx, n: nat)
    requires tx.Live?
  {
    && tx.id != 0
    && (forall i :: 0 <= i < |tx.list| ==> tx.list[i].lock < n)
    && match tx.pc {
         case Idle => true
         case Releasing(i) => i <= |tx.list|
         case WriteTest(l, _) => l < n
         case WriteSpin(l, _) => l < n && Writes(tx, l) == 0
         case WriteGot(l) => l < n
         case ReadWait(l) => l < n
         case ReadGot(l) => l < n
       }
  }

  ghost predicate DistinctIds(s: State) {
    forall t, u :: 0 <= t < u < |s.txs| && s.txs[t].Live? && s.txs[u].Live? ==> s.txs[t].id != s.txs[u].id
  }

  /** Each word counts exactly the readers that were granted or still wait. */
  ghost predicate CountsReaders(s: State) {
    forall l :: 0 <= l < |s.locks| ==> s.locks[l].readers == TotalAnnounced(s.txs, l)
  }

  /** A write lock is held at most once, and its word names its holder. */
  ghost predicate HolderNamed(s: State, t: nat, l: nat)
    requires t < |s.txs| && l < |s.locks|
  {
    Writes(s.txs[t], l) > 0 ==>
      s.txs[t].Live? && Writes(s.txs[t], l) == 1 && s.locks[l].owner == s.txs[t].id
  }

  ghost predicate NamesHolder(s: State) {
    forall t, l :: 0 <= t < |s.txs| && 0 <= l < |s.locks| ==> HolderNamed(s, t, l)
  }

  /** A word that names an owner is held for write. */
  ghost predicate OwnerHolds(s: State) {
    forall l :: 0 <= l < |s.locks| && s.locks[l].owner != 0 ==>
      exists t :: 0 <= t < |s.txs| && Writes(s.txs[t], l) == 1
  }

  /** A write lock excludes the granted read locks of every other transaction. */
  ghost predicate Excludes(s: State, t: nat, u: nat, l: nat)
    requires t < |s.txs| && u < |s.txs|
  {
    t != u && Writes(s.txs[t], l) > 0 ==> Grants(s.txs[u], l) == 0
  }

  ghost predicate ExcludesReaders(s: State) {
    forall t, u, l :: 0 <= t < |s.txs| && 0 <= u < |s.txs| && 0 <= l < |s.locks| ==> Excludes(s, t, u, l)
  }

  ghost predicate Inv(s: State) {
    WellFormed(s) && DistinctIds(s) && CountsReaders(s) && NamesHolder(s) && OwnerHolds(s) && ExcludesReaders(s)
  }

  lemma HolderFact(s: State, t: nat, l: nat)
    requires Inv(s) && t < |s.txs| && l < |s.locks| && Writes(s.txs[t], l) > 0
    ensures s.txs[t].Live? && s.txs[t].id != 0
    ensures Writes(s.txs[t], l) == 1 && s.locks[l].owner == s.txs[t].id
  {
    assert HolderNamed(s, t, l);
    assert WellFormedTx(s.txs[t], |s.locks|);
  }

  lemma GrantsFact(s: State, t: nat, u: nat, l: nat)
    requires Inv(s) && t < |s.txs| && u < |s.txs| && t != u && l < |s.locks| && Writes(s.txs[u], l) > 0
    ensures Grants(s.txs[t], l) == 0
  {
    assert Excludes(s, u, t, l);
  }

  // ----- What a step changes -----

  /** The change of the announced readers of `l` by the stepping transaction. */
  function AnnouncedChange(tx: Tx, step: Step, l: nat): int {
    match step
    case CallRead(m) => if m == l then 1 else 0
    case GiveUpRead => if tx.Live? && tx.pc == ReadWait(l) then -1 else 0
    case ListReadFails => if tx.Live? && tx.pc == ReadGot(l) then -1 else 0
    case ReleaseOne =>
      if tx.Live? && tx.pc.Releasing? && tx.pc.index < |tx.list| && tx.list[tx.pc.index] == Entry(l, Read) then -1 else 0
    case _ => 0
  }

  lemma HeldChange(s: State, t: nat, step: Step)
    requires t < |s.txs| && Enabled(s, t, step)
    ensures var tx, tx' := s.txs[t], Moved(s, t, step);
            match step
            case ListWrite => Held(tx') == Held(tx) + [Entry(tx.pc.lock, Write)]
            case ListRead => Held(tx') == Held(tx) + [Entry(tx.pc.lock, Read)]
            case ReleaseOne => Held(tx) == [tx.list[tx.pc.index]] + Held(tx')
            case _ => Held(tx') == Held(tx)
  {
    var tx := s.txs[t];
    if step.ReleaseOne? {
      assert tx.list[tx.pc.index..] == [tx.list[tx.pc.index]] + tx.list[tx.pc.index + 1..];
    } else if step.CallRelease? {
      assert tx.list[0..] == tx.list;
    } else if step.Finish? {
      assert tx.list[|tx.list|..] == [];
    }
  }

  /** The change of the entries `e` not undone yet. */
  function ListedChange(tx: Tx, step: Step, e: Entry): int {
    match step
    case ListWrite => if tx.Live? && tx.pc == WriteGot(e.lock) && e.kind.Write? then 1 else 0
    case ListRead => if tx.Live? && tx.pc == ReadGot(e.lock) && e.kind.Read? then 1 else 0
    case ReleaseOne =>
      if tx.Live? && tx.pc.Releasing? && tx.pc.index < |tx.list| && tx.list[tx.pc.index] == e then -1 else 0
    case _ => 0
  }

  lemma ListedMoves(s: State, t: nat, step: Step, l: nat, k: Kind)
    requires t < |s.txs| && Enabled(s, t, step)
    ensures Listed(Moved(s, t, step), l, k) == Listed(s.txs[t], l, k) + ListedChange(s.txs[t], step, Entry(l, k))
  {
    HeldChange(s, t, step);
    hide Held, Moved;
  }

  lemma AnnouncedMoves(s: State, t: nat, step: Step, l: nat)
    requires t < |s.txs| && Enabled(s, t, step)
    ensures Announced(Moved(s, t, step), l) == Announced(s.txs[t], l) + AnnouncedChange(s.txs[t], step, l)
  {
    hide Listed;
    ListedMoves(s, t, step, l, Read);
  }

  lemma {:induction false} TotalUpdate(txs: seq<Tx>, t: nat, tx: Tx, l: nat)
    requires t < |txs|
    ensures TotalAnnounced(txs[t := tx], l) == TotalAnnounced(txs, l) - Announced(txs[t], l) + Announced(tx, l)
    decreases |txs|
  {
    hide Announced;
    var n := |txs| - 1;
    var txs' := txs[t := tx];
    if t == n {
      assert txs'[..n] == txs[..n];
    } else {
      assert txs'[..n] == txs[..n][t := tx];
      TotalUpdate(txs[..n], t, tx, l);
    }
  }

  lemma {:induction false} TotalCovers(txs: seq<Tx>, t: nat, u: nat, l: nat)
    requires t < |txs| && u < |txs|
    ensures Announced(txs[t], l) <= TotalAnnounced(txs, l)
    ensures t != u ==> Announced(txs[t], l) + Announced(txs[u], l) <= TotalAnnounced(txs, l)
    decreases |txs|
  {
    hide Announced;
    var n := |txs| - 1;
    if t < n && u < n {
      TotalCovers(txs[..n], t, u, l);
    } else if t < n {
      TotalCovers(txs[..n], t, t, l);
    } else if u < n {
      TotalCovers(txs[..n], u, u, l);
    }
  }

  /** The change of the write locks held on `l` by the stepping transaction. */
  function WritesChange(s: State, t: nat, step: Step, l: nat): int
    requires t < |s.txs| && Enabled(s, t, step)
  {
    var tx := s.txs[t];
    match step
    case TestOwner => if tx.pc.lock == l && s.locks[l].owner == tx.id then 1 else 0
    case CompareAndSwap => if tx.pc.lock == l && s.locks[l] == Word(0, Expected(tx.pc.upgrade)) then 1 else 0
    case ListWriteFails => if tx.pc.lock == l then -1 else 0
    case ReleaseOne => if tx.list[tx.pc.index] == Entry(l, Write) then -1 else 0
    case _ => 0
  }

  /** The change of the read locks granted on `l` to the stepping transaction. */
  function GrantsChange(s: State, t: nat, step: Step, l: nat): int
    requires t < |s.txs| && Enabled(s, t, step)
  {
    var tx := s.txs[t];
    match step
    case PollWriter => if tx.pc.lock == l && s.locks[l].owner == 0 then 1 else 0
    case ListReadFails => if tx.pc.lock == l then -1 else 0
    case ReleaseOne => if tx.list[tx.pc.index] == Entry(l, Read) then -1 else 0
    case _ => 0
  }

  lemma WritesMoves(s: State, t: nat, step: Step, l: nat)
    requires t < |s.txs| && Enabled(s, t, step)
    ensures Writes(Moved(s, t, step), l) == Writes(s.txs[t], l) + WritesChange(s, t, step, l)
  {
    hide Listed;
    ListedMoves(s, t, step, l, Write);
  }

  lemma GrantsMoves(s: State, t: nat, step: Step, l: nat)
    requires t < |s.txs| && Enabled(s, t, step)
    ensures Grants(Moved(s, t, step), l) == Grants(s.txs[t], l) + GrantsChange(s, t, step, l)
  {
    hide Listed;
    ListedMoves(s, t, step, l, Read);
  }

  // ----- Each part of the invariant is kept -----

  lemma OwnerOf(s: State, l: nat) returns (u: nat)
    requires Inv(s) && l < |s.locks| && s.locks[l].owner != 0
    ensures u < |s.txs| && s.txs[u].Live? && Writes(s.txs[u], l) == 1 && s.locks[l].owner == s.txs[u].id
  {
    u :| 0 <= u < |s.txs| && Writes(s.txs[u], l) == 1;
    HolderFact(s, u, l);
  }

  lemma SameId(s: State, t: nat, u: nat)
    requires Inv(s) && t < |s.txs| && u < |s.txs| && s.txs[t].Live? && s.txs[u].Live? && s.txs[t].id == s.txs[u].id
    ensures t == u
  {
  }

  lemma KeepsCounts(s: State, t: nat, step: Step)
    requires Inv(s) && t < |s.txs| && Enabled(s, t, step) && !Bad(s, t, step)
    ensures CountsReaders(Apply(s, t, step))
    ensures forall l :: 0 <= l < |s.locks| ==> Apply(s, t, step).locks[l].readers <= UINT16_MAX
  {
    var s' := Apply(s, t, step);
    forall l | 0 <= l < |s.locks|
      ensures s'.locks[l].readers == TotalAnnounced(s'.txs, l)
      ensures s'.locks[l].readers <= UINT16_MAX
    {
      AnnouncedMoves(s, t, step, l);
      TotalUpdate(s.txs, t, Moved(s, t, step), l);
      TotalCovers(s.txs, t, t, l);
      ReadersWritten(s, t, step, l);
    }
  }

  lemma ReadersWritten(s: State, t: nat, step: Step, l: nat)
    requires WellFormed(s) && t < |s.txs| && Enabled(s, t, step) && l < |s.locks| && !Bad(s, t, step)
    requires s.locks[l].readers + AnnouncedChange(s.txs[t], step, l) >= 0
    ensures Written(s, t, step)[l].readers == s.locks[l].readers + AnnouncedChange(s.txs[t], step, l)
  {
  }

  lemma KeepsTxForm(s: State, t: nat, step: Step)
    requires Inv(s) && t < |s.txs| && Enabled(s, t, step) && Moved(s, t, step).Live?
    ensures WellFormedTx(Moved(s, t, step), |s.locks|)
  {
    hide Writes, DistinctIds, CountsReaders, NamesHolder, OwnerHolds, ExcludesReaders;
    var tx, tx' := s.txs[t], Moved(s, t, step);
    if tx.Live? { assert WellFormedTx(tx, |s.locks|); }
    if tx'.pc.WriteSpin? {
      WritesMoves(s, t, step, tx'.pc.lock);
      if Writes(tx, tx'.pc.lock) > 0 { HolderFact(s, t, tx'.pc.lock); }
    }
  }

  lemma KeepsForm(s: State, t: nat, step: Step)
    requires Inv(s) && t < |s.txs| && Enabled(s, t, step) && !Bad(s, t, step)
    ensures WellFormed(Apply(s, t, step)) && DistinctIds(Apply(s, t, step))
  {
    hide WellFormedTx, CountsReaders;
    KeepsCounts(s, t, step);
    if Moved(s, t, step).Live? { KeepsTxForm(s, t, step); }
  }

  /** No step of one transaction takes a write lock away from another. */
  lemma OthersKeepLock(s: State, t: nat, step: Step, u: nat, l: nat)
    requires Inv(s) && t < |s.txs| && Enabled(s, t, step) && u < |s.txs| && u != t && l < |s.locks|
    requires Writes(s.txs[u], l) > 0
    ensures Written(s, t, step)[l].owner == s.locks[l].owner
  {
    HolderFact(s, u, l);
    if Writes(s.txs[t], l) > 0 { HolderFact(s, t, l); }
  }

  lemma KeepsOwnLock(s: State, t: nat, step: Step, l: nat)
    requires Inv(s) && t < |s.txs| && Enabled(s, t, step) && !Bad(s, t, step) && l < |s.locks|
    requires Writes(Moved(s, t, step), l) > 0
    ensures Moved(s, t, step).Live?
    ensures Writes(Moved(s, t, step), l) == 1 && Written(s, t, step)[l].owner == Moved(s, t, step).id
  {
    hide Writes;
    WritesMoves(s, t, step, l);
    DeadHoldsNothing(s.txs[t], l);
    DeadHoldsNothing(Moved(s, t, step), l);
    if Writes(s.txs[t], l) > 0 {
      HolderFact(s, t, l);
    } else if step.CompareAndSwap? {
      assert WellFormedTx(s.txs[t], |s.locks|);
    }
  }

  lemma DeadHoldsNothing(tx: Tx, l: nat)
    ensures tx.Dead? ==> Writes(tx, l) == 0
  {
  }

  lemma KeepsHolder(s: State, t: nat, step: Step)
    requires Inv(s) && t < |s.txs| && Enabled(s, t, step) && !Bad(s, t, step)
    ensures NamesHolder(Apply(s, t, step))
  {
    var s' := Apply(s, t, step);
    LocksStay(s, t, step);
    forall u, l | 0 <= u < |s'.txs| && 0 <= l < |s'.locks|
      ensures HolderNamed(s', u, l)
    {
      if Writes(s'.txs[u], l) > 0 {
        hide Written, Moved, Writes, Enabled, Inv;
        if u == t {
          KeepsOwnLock(s, t, step, l);
        } else {
          HolderFact(s, u, l);
          OthersKeepLock(s, t, step, u, l);
        }
      }
    }
  }

  lemma LocksStay(s: State, t: nat, step: Step)
    requires t < |s.txs| && Enabled(s, t, step)
    ensures |Written(s, t, step)| == |s.locks|
  {
  }

  lemma KeepsOwner(s: State, t: nat, step: Step)
    requires Inv(s) && t < |s.txs| && Enabled(s, t, step) && !Bad(s, t, step)
    ensures OwnerHolds(Apply(s, t, step))
  {
    hide Moved, Writes, WellFormed, CountsReaders, ExcludesReaders;
    var s' := Apply(s, t, step);
    forall l | 0 <= l < |s'.locks| && s'.locks[l].owner != 0
      ensures exists u :: 0 <= u < |s'.txs| && Writes(s'.txs[u], l) == 1
    {
      LocksStay(s, t, step);
      WritesMoves(s, t, step, l);
      NoLostOwner(s, t, step, l);
      var u :| 0 <= u < |s.txs| && (if u == t then Writes(Moved(s, t, step), l) == 1 else Writes(s.txs[u], l) == 1);
      assert Writes(s'.txs[u], l) == 1;
    }
  }

  /** A word that names an owner after a step has a holder after it. */
  lemma NoLostOwner(s: State, t: nat, step: Step, l: nat)
    requires Inv(s) && t < |s.txs| && Enabled(s, t, step) && !Bad(s, t, step) && l < |s.locks|
    requires Written(s, t, step)[l].owner != 0
    ensures exists u :: 0 <= u < |s.txs| && (if u == t then Writes(Moved(s, t, step), l) == 1 else Writes(s.txs[u], l) == 1)
  {
    WritesMoves(s, t, step, l);
    if s.locks[l].owner != 0 {
      var u :| 0 <= u < |s.txs| && Writes(s.txs[u], l) == 1;
      if u == t {
        HolderFact(s, t, l);
        assert Writes(Moved(s, t, step), l) == 1;
      }
    } else {
      if s.txs[t].Live? { assert WellFormedTx(s.txs[t], |s.locks|); }
      assert Writes(Moved(s, t, step), l) == 1;
    }
  }

  lemma KeepsExclusion(s: State, t: nat, step: Step)
    requires Inv(s) && t < |s.txs| && Enabled(s, t, step) && !Bad(s, t, step)
    ensures ExcludesReaders(Apply(s, t, step))
  {
    hide Moved, Written, Writes, Grants, WellFormed, DistinctIds, CountsReaders, NamesHolder, OwnerHolds;
    var s' := Apply(s, t, step);
    LocksStay(s, t, step);
    forall u, v, l | 0 <= u < |s'.txs| && 0 <= v < |s'.txs| && 0 <= l < |s'.locks|
      ensures Excludes(s', u, v, l)
    {
      if u != v && Writes(s'.txs[u], l) > 0 {
        if u == t {
          WriterExcludes(s, t, step, v, l);
        } else if v == t {
          WriterStays(s, t, step, u, l);
        } else {
          GrantsFact(s, v, u, l);
        }
      }
    }
  }

  /** A transaction that gets or keeps a write lock leaves no other one with a granted read lock. */
  lemma WriterExcludes(s: State, t: nat, step: Step, v: nat, l: nat)
    requires Inv(s) && t < |s.txs| && Enabled(s, t, step) && !Bad(s, t, step) && v < |s.txs| && v != t && l < |s.locks|
    requires Writes(Moved(s, t, step), l) > 0
    ensures Grants(s.txs[v], l) == 0
  {
    hide Writes;
    WritesMoves(s, t, step, l);
    if Writes(s.txs[t], l) == 0 {
      assert step.CompareAndSwap? && s.locks[l].readers == Expected(s.txs[t].pc.upgrade);
      TotalCovers(s.txs, t, v, l);
    } else {
      GrantsFact(s, v, t, l);
    }
  }

  /** No read lock is granted while another transaction holds the write lock. */
  lemma WriterStays(s: State, t: nat, step: Step, u: nat, l: nat)
    requires Inv(s) && t < |s.txs| && Enabled(s, t, step) && u < |s.txs| && u != t && l < |s.locks|
    requires Writes(s.txs[u], l) > 0
    ensures Grants(Moved(s, t, step), l) == 0
  {
    hide Writes, Grants;
    GrantsMoves(s, t, step, l);
    HolderFact(s, u, l);
    GrantsFact(s, t, u, l);
  }

  lemma Keeps(s: State, s': State)
    requires Inv(s) && Next(s, s')
    ensures Inv(s')
  {
    hide WellFormed, DistinctIds, CountsReaders, NamesHolder, OwnerHolds, ExcludesReaders, Enabled, Bad, Apply;
    var t, step :| 0 <= t < |s.txs| && Enabled(s, t, step) && !Bad(s, t, step) && s' == Apply(s, t, step);
    KeepsCounts(s, t, step);
    KeepsForm(s, t, step);
    KeepsHolder(s, t, step);
    KeepsOwner(s, t, step);
    KeepsExclusion(s, t, step);
  }

  // ----- Whole runs -----

  ghost predicate NextAt(run: seq<State>, i: nat)
    requires 0 < i < |run|
  {
    Next(run[i - 1], run[i])
  }

  ghost predicate IsRun(run: seq<State>) {
    && run != [] && Initial(run[0])
    && forall i :: 0 < i < |run| ==> NextAt(run, i)
  }

  lemma {:induction false} InitialTotal(txs: seq<Tx>, l: nat)
    requires forall t :: 0 <= t < |txs| ==> txs[t].Dead?
    ensures TotalAnnounced(txs, l) == 0
    decreases |txs|
  {
    if txs != [] { InitialTotal(txs[..|txs| - 1], l); }
  }

  lemma InitialInv(s: State)
    requires Initial(s)
    ensures Inv(s)
  {
    forall l | 0 <= l < |s.locks| ensures s.locks[l].readers == TotalAnnounced(s.txs, l) {
      InitialTotal(s.txs, l);
    }
  }

  lemma {:induction false} RunInv(run: seq<State>, i: nat)
    requires IsRun(run) && i < |run|
    ensures Inv(run[i])
  {
    hide Next, Inv, Initial;
    if i == 0 {
      InitialInv(run[0]);
    } else {
      RunInv(run, i - 1);
      assert NextAt(run, i);
      Keeps(run[i - 1], run[i]);
    }
  }

  /** While `t` holds `l` for write, `u` holds it neither for read nor for write. */
  ghost predicate Apart(s: State, t: nat, u: nat, l: nat)
    requires t < |s.txs| && u < |s.txs|
  {
    t != u && Writes(s.txs[t], l) > 0 ==> Writes(s.txs[u], l) == 0 && Grants(s.txs[u], l) == 0
  }

  /** While one transaction holds a lock for write, no other holds it for read or write. */
  ghost predicate MutualExclusion(s: State) {
    forall t, u, l :: 0 <= t < |s.txs| && 0 <= u < |s.txs| && 0 <= l < |s.locks| ==> Apart(s, t, u, l)
  }

  /** In every interleaving: mutual exclusion, and words that count exactly the announced readers. */
  lemma RunsAreSafe(run: seq<State>, i: nat)
    requires IsRun(run) && i < |run|
    ensures MutualExclusion(run[i]) && CountsReaders(run[i])
  {
    RunInv(run, i);
    var s := run[i];
    assert CountsReaders(s);
    hide Inv, CountsReaders, Writes, Grants;
    forall t, u, l | 0 <= t < |s.txs| && 0 <= u < |s.txs| && 0 <= l < |s.locks|
      ensures Apart(s, t, u, l)
    {
      if t != u && Writes(s.txs[t], l) > 0 { HoldersDiffer(s, t, u, l); }
    }
  }

  lemma HoldersDiffer(s: State, t: nat, u: nat, l: nat)
    requires Inv(s) && t < |s.txs| && u < |s.txs| && t != u && l < |s.locks| && Writes(s.txs[t], l) > 0
    ensures Writes(s.txs[u], l) == 0 && Grants(s.txs[u], l) == 0
  {
    hide WellFormed, CountsReaders, NamesHolder, OwnerHolds, ExcludesReaders, Writes, Grants;
    GrantsFact(s, u, t, l);
    HolderFact(s, t, l);
    if Writes(s.txs[u], l) > 0 { HolderFact(s, u, l); }
  }

  /** When no transaction is live, every lock is free again. */
  lemma ReleasedAtRest(run: seq<State>, i: nat)
    requires IsRun(run) && i < |run|
    requires forall t :: 0 <= t < |run[i].txs| ==> run[i].txs[t].Dead?
    ensures forall l :: 0 <= l < |run[i].locks| ==> run[i].locks[l] == Word(0, 0)
  {
    RunInv(run, i);
    var s := run[i];
    forall l | 0 <= l < |s.locks| ensures s.locks[l] == Word(0, 0) {
      InitialTotal(s.txs, l);
    }
  }
}
