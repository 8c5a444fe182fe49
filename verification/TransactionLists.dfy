/**
 The sequential parts of `transaction.c`: transaction ids, the doubling list of taken locks,
 and the release loop.
 */
module TransactionLists {

  import opened Modulo
  import opened TransactionLocks

  // ----- Ids -----

  /** The 16-bit transaction index after one more acquire; worker 0 skips index 0. */
  function NextIndex(worker: nat, index: nat): nat {
    var i := (index + 1) % 65536;
    if worker == 0 && i == 0 then (i + 1) % 65536 else i
  }

  function Id(worker: nat, index: nat): nat { 65536 * worker + index }

  /** The index after `n` acquires. */
  function Nth(worker: nat, start: nat, n: nat): nat {
    if n == 0 then start else NextIndex(worker, Nth(worker, start, n - 1))
  }

  lemma ModDistinct(a: nat, b: nat, m: nat)
    requires 0 < b - a < m
    ensures a % m != b % m
  {
    if a % m == b % m {
      ModUnique(b - a, m, b / m - a / m, 0);
      ModUnique(b - a, m, 0, b - a);
    }
  }

  /** One step of the index, without the two ways of skipping 0. */
  lemma NextIndexIs(worker: nat, index: nat)
    requires index < 65536
    ensures NextIndex(worker, index) ==
            if index == 65535 then (if worker == 0 then 1 else 0) else index + 1
  {
  }

  lemma {:induction false} NthClosedForm(worker: nat, start: nat, n: nat)
    requires start < 65536 && n > 0
    ensures Nth(worker, start, n) == if worker == 0 then (start + (n - 1)) % 65535 + 1 else (start + n) % 65536
  {
    hide NextIndex;
    if n > 1 {
      NthClosedForm(worker, start, n - 1);
      NextIndexIs(worker, Nth(worker, start, n - 1));
      ModNext(start + (n - 2), 65535);
      ModNext(start + (n - 1), 65536);
    } else {
      assert Nth(worker, start, 0) == start;
      NextIndexIs(worker, start);
    }
  }

  /** No id is 0, and any 65535 consecutive ids of one worker are different. */
  lemma IdsDistinct(worker: nat, start: nat, m: nat, n: nat)
    requires start < 65536 && 0 < m < n < m + 65535
    ensures Id(worker, Nth(worker, start, m)) != 0
    ensures Id(worker, Nth(worker, start, m)) != Id(worker, Nth(worker, start, n))
  {
    hide Nth;
    NthClosedForm(worker, start, m);
    NthClosedForm(worker, start, n);
    ModDistinct(start + (m - 1), start + (n - 1), 65535);
    ModDistinct(start + m, start + n, 65536);
  }

  /** Ids of different workers differ. */
  lemma WorkersDistinct(worker: nat, index: nat, worker': nat, index': nat)
    requires index < 65536 && index' < 65536 && worker != worker'
    ensures Id(worker, index) != Id(worker', index')
  {
  }

  class IdSource {
    const worker: nat
    var index: nat

    constructor (worker: nat)
      ensures this.worker == worker && index == 0
    {
      this.worker := worker;
      index := 0;
    }

    method Acquire() returns (id: nat)
      requires index < 65536
      modifies this
      ensures index == NextIndex(worker, old(index)) && index < 65536
      ensures id == Id(worker, index) && id != 0
    {
      index := (index + 1) % 65536;
      if worker == 0 && index == 0 {
        index := (index + 1) % 65536;
      }
      id := Id(worker, index);
    }
  }

  // ----- What taking and releasing a list of locks does to the words -----

  function TakeOne(words: seq<Word>, e: Entry, id: nat): seq<Word>
    requires e.lock < |words|
  {
    var w := words[e.lock];
    words[e.lock := if e.kind.Write? then w.(owner := id) else w.(readers := w.readers + 1)]
  }

  function UndoOne(words: seq<Word>, e: Entry): seq<Word>
    requires e.lock < |words|
  {
    var w := words[e.lock];
    words[e.lock := if e.kind.Write? then Unlock(w) else Leave(w)]
  }

  predicate LocksExist(es: seq<Entry>, n: nat) {
    forall i :: 0 <= i < |es| ==> es[i].lock < n
  }

  function TakeAll(words: seq<Word>, es: seq<Entry>, id: nat): (r: seq<Word>)
    requires LocksExist(es, |words|)
    ensures |r| == |words|
    decreases |es|
  {
    if es == [] then words else TakeAll(TakeOne(words, es[0], id), es[1..], id)
  }

  function UndoAll(words: seq<Word>, es: seq<Entry>): (r: seq<Word>)
    requires LocksExist(es, |words|)
    ensures |r| == |words|
    decreases |es|
  {
    if es == [] then words else UndoAll(UndoOne(words, es[0]), es[1..])
  }

  /** How often `e` is listed. */
  function Times(es: seq<Entry>, e: Entry): nat {
    if es == [] then 0 else (if es[0] == e then 1 else 0) + Times(es[1..], e)
  }

  lemma {:induction false} TakeAllAt(words: seq<Word>, es: seq<Entry>, id: nat, l: nat)
    requires LocksExist(es, |words|) && l < |words|
    ensures TakeAll(words, es, id)[l].readers == words[l].readers + Times(es, Entry(l, Read))
    ensures TakeAll(words, es, id)[l].owner == if Times(es, Entry(l, Write)) > 0 then id else words[l].owner
    decreases |es|
  {
    if es != [] {
      TakeAllAt(TakeOne(words, es[0], id), es[1..], id, l);
    }
  }

  lemma {:induction false} UndoAllAt(words: seq<Word>, es: seq<Entry>, l: nat)
    requires LocksExist(es, |words|) && l < |words|
    requires Times(es, Entry(l, Read)) <= words[l].readers <= UINT16_MAX
    ensures UndoAll(words, es)[l].readers == words[l].readers - Times(es, Entry(l, Read))
    ensures UndoAll(words, es)[l].owner == if Times(es, Entry(l, Write)) > 0 then 0 else words[l].owner
    decreases |es|
  {
    if es != [] {
      UndoAllAt(UndoOne(words, es[0]), es[1..], l);
    }
  }

  /** Releasing undoes exactly what was taken, if and only if the locks taken for write were free. */
  lemma ReleaseUndoesTake(words: seq<Word>, es: seq<Entry>, id: nat)
    requires LocksExist(es, |words|)
    requires forall l :: 0 <= l < |words| ==> TakeAll(words, es, id)[l].readers <= UINT16_MAX
    ensures UndoAll(TakeAll(words, es, id), es) == words <==>
            forall l :: 0 <= l < |words| && Times(es, Entry(l, Write)) > 0 ==> words[l].owner == 0
  {
    var taken := TakeAll(words, es, id);
    var undone := UndoAll(taken, es);
    forall l | 0 <= l < |words|
      ensures undone[l].readers == words[l].readers
      ensures undone[l].owner == if Times(es, Entry(l, Write)) > 0 then 0 else words[l].owner
    {
      TakeAllAt(words, es, id, l);
      UndoAllAt(taken, es, l);
    }
    if forall l :: 0 <= l < |words| && Times(es, Entry(l, Write)) > 0 ==> words[l].owner == 0 {
      assert forall l :: 0 <= l < |words| ==> undone[l] == words[l];
    }
  }

  // ----- The list -----

  class LocksList {
    var size: nat
    var count: nat
    var list: array<Entry>

    ghost predicate Valid()
      reads this
    {
      0 < size == list.Length && count <= size
    }

    ghost function Contents(): seq<Entry>
      requires Valid()
      reads this, list
    {
      list[..count]
    }

    constructor ()
      ensures Valid() && fresh(list) && Contents() == []
    {
      size := 2;
      count := 0;
      list := new Entry[2](_ => Entry(0, Read));
    }

    /** Doubles the list in place of `realloc`. */
    method Expand()
      requires Valid()
      modifies this
      ensures Valid() && size == 2 * old(size) && count == old(count) && fresh(list)
      ensures Contents() == old(Contents())
    {
      size := size * 2;
      var bigger := new Entry[size](_ => Entry(0, Read));
      for i := 0 to count
        invariant 0 <= i <= count == old(count) && size == 2 * old(size) == bigger.Length && list == old(list)
        invariant fresh(bigger) && unchanged(list)
        invariant bigger[..i] == list[..i]
      {
        bigger[i] := list[i];
      }
      list := bigger;
    }

    method Add(lock: nat, kind: Kind)
      requires Valid()
      modifies this, list
      ensures Valid() && (list == old(list) || fresh(list))
      ensures Contents() == old(Contents()) + [Entry(lock, kind)]
    {
      if count == size {
        Expand();
      }
      list[count] := Entry(lock, kind);
      count := count + 1;
    }

    /** The release loop over the lock words. */
    method Release(words: array<Word>)
      requires Valid() && LocksExist(Contents(), words.Length)
      modifies words
      ensures words[..] == UndoAll(old(words[..]), Contents())
    {
      ghost var es, before := Contents(), words[..];
      for i := 0 to count
        invariant Valid() && Contents() == es
        invariant UndoAll(words[..], es[i..]) == UndoAll(before, es)
      {
        var e := list[i];
        assert e == es[i..][0] && es[i..][1..] == es[i + 1..];
        ghost var now := words[..];
        if e.kind.Write? {
          words[e.lock] := Unlock(words[e.lock]);
        } else {
          words[e.lock] := Leave(words[e.lock]);
        }
        assert words[..] == UndoOne(now, e);
      }
    }
  }
}
