/** The doubly linked list of `double_linked_list.h` on the heap, refining a sequence of items. */
module LinkedList {

  import opened Sequences

  // ----- Sequences -----

  function Reverse<X>(s: seq<X>): (r: seq<X>)
    ensures |r| == |s|
  {
    if s == [] then [] else [s[|s| - 1]] + Reverse(s[..|s| - 1])
  }

  lemma ReverseStep<X>(s: seq<X>, n: nat)
    requires 0 < n <= |s|
    ensures Reverse(s[..n]) == [s[n - 1]] + Reverse(s[..n - 1])
  {
    assert s[..n][..n - 1] == s[..n - 1];
  }

  lemma ReverseNothing<X>()
    ensures Reverse<X>([]) == []
  {
  }

  predicate Distinct<X(==)>(s: seq<X>) {
    forall i, j :: 0 <= i < j < |s| ==> s[i] != s[j]
  }

  lemma InsertDistinct<X>(s: seq<X>, at: nat, x: X)
    requires at <= |s| && Distinct(s) && x !in s
    ensures Distinct(InsertAt(s, at, x))
  {
    hide InsertAt;
    InsertAtIs(s, at, x);
  }

  lemma RemoveDistinct<X>(s: seq<X>, at: nat)
    requires at < |s| && Distinct(s)
    ensures Distinct(RemoveAt(s, at)) && s[at] !in RemoveAt(s, at)
  {
    hide RemoveAt;
    RemoveAtIs(s, at);
  }

  // ----- Items and their links -----

  class Item<T> {
    var prev: Item?<T>
    var next: Item?<T>
    var data: T

    constructor (data: T)
      ensures prev == null && next == null && this.data == data
    {
      this.data := data;
      prev, next := null, null;
    }
  }

  /** The neighbours of the item at place `i`, as pointers. */
  ghost function Before<T>(items: seq<Item<T>>, i: nat): Item?<T>
    requires i < |items|
  {
    if i == 0 then null else items[i - 1]
  }

  ghost function After<T>(items: seq<Item<T>>, i: nat): Item?<T>
    requires i < |items|
  {
    if i == |items| - 1 then null else items[i + 1]
  }

  ghost predicate LinkOk<T>(items: seq<Item<T>>, i: nat)
    requires i < |items|
    reads items[i]
  {
    items[i].prev == Before(items, i) && items[i].next == After(items, i)
  }

  ghost predicate Linked<T>(items: seq<Item<T>>)
    reads items
  {
    Distinct(items) && forall i :: 0 <= i < |items| ==> LinkOk(items, i)
  }

  const U32: nat := 0x1_0000_0000

  lemma CountNext(n: nat)
    ensures (n % U32 + 1) % U32 == (n + 1) % U32
  {
  }

  lemma CountLess(n: nat)
    requires n > 0
    ensures (n % U32 + U32 - 1) % U32 == (n - 1) % U32
  {
  }

  // ----- Pointer writes -----

  /** Linking an item in before another one makes the links those of the longer sequence. */
  method LinkBefore<T>(item: Item<T>, before: Item?<T>, ghost items: seq<Item<T>>, ghost at: nat)
    requires Linked(items) && item !in items
    requires if before == null then items == [] && at == 0 else at < |items| && items[at] == before
    modifies item`prev, item`next, items`prev, items`next
    ensures Linked(InsertAt(items, at, item))
  {
    ghost var r := InsertAt(items, at, item);
    InsertAtIs(items, at, item);
    InsertDistinct(items, at, item);
    hide InsertAt;
    item.prev, item.next := null, null;
    if before != null {
      assert LinkOk(items, at);
      assert at > 0 ==> LinkOk(items, at - 1);
      item.prev := before.prev;
      item.next := before;
      before.prev := item;
      if item.prev != null && item.prev.next != null {
        item.prev.next := item;
      }
    }
    forall i | 0 <= i < |r| ensures LinkOk(r, i) {
      if i < at { assert old(LinkOk(items, i)); }
      if i > at { assert old(LinkOk(items, i - 1)); }
    }
  }

  /** Linking an item in after another one makes the links those of the longer sequence. */
  method LinkAfter<T>(item: Item<T>, after: Item?<T>, ghost items: seq<Item<T>>, ghost at: nat)
    requires Linked(items) && item !in items
    requires if after == null then items == [] && at == 0 else 0 < at <= |items| && items[at - 1] == after
    modifies item`prev, item`next, items`prev, items`next
    ensures Linked(InsertAt(items, at, item))
  {
    ghost var r := InsertAt(items, at, item);
    InsertAtIs(items, at, item);
    InsertDistinct(items, at, item);
    hide InsertAt;
    item.prev, item.next := null, null;
    if after != null {
      assert LinkOk(items, at - 1);
      assert at < |items| ==> LinkOk(items, at);
      item.prev := after;
      item.next := after.next;
      after.next := item;
      if item.next != null && item.next.prev != null {
        item.next.prev := item;
      }
    }
    forall i | 0 <= i < |r| ensures LinkOk(r, i) {
      if i < at { assert old(LinkOk(items, i)); }
      if i > at { assert old(LinkOk(items, i - 1)); }
    }
  }

  /** Taking an item out makes the links those of the shorter sequence. */
  method Unlink<T>(item: Item<T>, ghost items: seq<Item<T>>, ghost at: nat)
    requires Linked(items) && at < |items| && items[at] == item
    modifies items`prev, items`next
    ensures Linked(RemoveAt(items, at)) && item !in RemoveAt(items, at)
    ensures item.prev == old(item.prev) && item.next == old(item.next)
  {
    ghost var r := RemoveAt(items, at);
    RemoveAtIs(items, at);
    RemoveDistinct(items, at);
    hide RemoveAt;
    assert LinkOk(items, at);
    if item.next != null { item.next.prev := item.prev; }
    if item.prev != null { item.prev.next := item.next; }
    forall i | 0 <= i < |r| ensures LinkOk(r, i) {
      if i < at { assert old(LinkOk(items, i)); } else { assert old(LinkOk(items, i + 1)); }
    }
  }

  /** Moving an item that is not the first to the front. */
  method LinkFirst<T>(item: Item<T>, head: Item<T>, ghost items: seq<Item<T>>, ghost at: nat)
    requires Linked(items) && 0 < at < |items| && items[at] == item && items[0] == head
    modifies items`prev, items`next
    ensures Linked([item] + RemoveAt(items, at))
  {
    ghost var r := [item] + RemoveAt(items, at);
    RemoveAtIs(items, at);
    RemoveDistinct(items, at);
    hide RemoveAt;
    assert LinkOk(items, at);
    var before, after := item.prev, item.next;
    item.next, item.prev := head, null;
    head.prev := item;
    if before != null { before.next := after; }
    if after != null { after.prev := before; }
    forall i | 0 <= i < |r| ensures LinkOk(r, i) {
      if 0 < i <= at { assert old(LinkOk(items, i - 1)); }
      if i > at { assert old(LinkOk(items, i)); }
    }
  }

  /** Moving an item that is not the last to the back. */
  method LinkLast<T>(item: Item<T>, tail: Item<T>, ghost items: seq<Item<T>>, ghost at: nat)
    requires Linked(items) && at < |items| - 1 && items[at] == item && items[|items| - 1] == tail
    modifies items`prev, items`next
    ensures Linked(RemoveAt(items, at) + [item])
  {
    ghost var r := RemoveAt(items, at) + [item];
    RemoveAtIs(items, at);
    RemoveDistinct(items, at);
    hide RemoveAt;
    assert LinkOk(items, at);
    var before, after := item.prev, item.next;
    item.next, item.prev := null, tail;
    tail.next := item;
    if before != null { before.next := after; }
    if after != null { after.prev := before; }
    forall i | 0 <= i < |r| ensures LinkOk(r, i) {
      if i < at { assert old(LinkOk(items, i)); }
      if at <= i < |r| - 1 { assert old(LinkOk(items, i + 1)); }
    }
  }

  // ----- The list -----

  class List<T> {
    var count: nat
    var head: Item?<T>
    var tail: Item?<T>
    ghost var items: seq<Item<T>>

    ghost predicate Valid()
      reads this, items
    {
      && count == |items| % U32
      && head == (if items == [] then null else items[0])
      && tail == (if items == [] then null else items[|items| - 1])
      && Linked(items)
    }

    constructor ()
      ensures Valid() && items == []
    {
      count, head, tail, items := 0, null, null, [];
    }

    method InsertBefore(item: Item<T>, before: Item?<T>, ghost at: nat)
      requires Valid() && item !in items
      requires if before == null then items == [] && at == 0 else at < |items| && items[at] == before
      modifies this, item`prev, item`next, items`prev, items`next
      ensures Valid() && items == InsertAt(old(items), at, item)
    {
      hide InsertAt, Distinct;
      LinkBefore(item, before, items, at);
      InsertAtIs(items, at, item);
      Ends(InsertAt(items, at, item), at);
      CountNext(|items|);
      items := InsertAt(items, at, item);
      if item.prev == null { head := item; }
      if item.next == null { tail := item; }
      count := (count + 1) % U32;
    }

    method InsertAfter(item: Item<T>, after: Item?<T>, ghost at: nat)
      requires Valid() && item !in items
      requires if after == null then items == [] && at == 0 else 0 < at <= |items| && items[at - 1] == after
      modifies this, item`prev, item`next, items`prev, items`next
      ensures Valid() && items == InsertAt(old(items), at, item)
    {
      LinkAfter(item, after, items, at);
      InsertAtIs(items, at, item);
      hide InsertAt, Distinct;
      Ends(InsertAt(items, at, item), at);
      CountNext(|items|);
      items := InsertAt(items, at, item);
      if item.prev == null { head := item; }
      if item.next == null { tail := item; }
      count := (count + 1) % U32;
    }

    method Push(item: Item<T>)
      requires Valid() && item !in items
      modifies this, item`prev, item`next, items`prev, items`next
      ensures Valid() && items == old(items) + [item]
    {
      InsertAfter(item, tail, |items|);
    }

    method Unshift(item: Item<T>)
      requires Valid() && item !in items
      modifies this, item`prev, item`next, items`prev, items`next
      ensures Valid() && items == [item] + old(items)
    {
      InsertBefore(item, head, 0);
    }

    method Remove(item: Item<T>, ghost at: nat)
      requires Valid() && at < |items| && items[at] == item
      modifies this, items`prev, items`next
      ensures Valid() && items == RemoveAt(old(items), at)
      ensures item !in items && item.prev == null && item.next == null
    {
      hide RemoveAt, Distinct;
      ghost var was := items;
      Ends(was, at);
      Unlink(item, was, at);
      RemoveAtIs(was, at);
      items := RemoveAt(was, at);
      if head == item { head := item.next; }
      if tail == item { tail := item.prev; }
      item.next, item.prev := null, null;
      CountLess(|was|);
      count := (count + U32 - 1) % U32;
    }

    method Pop() returns (item: Item?<T>)
      requires Valid()
      modifies this, items`prev, items`next
      ensures Valid()
      ensures if old(items) == [] then item == null && items == [] else item != null && old(items) == items + [item]
    {
      item := tail;
      if item != null { Remove(item, |items| - 1); }
    }

    method Shift() returns (item: Item?<T>)
      requires Valid()
      modifies this, items`prev, items`next
      ensures Valid()
      ensures if old(items) == [] then item == null && items == [] else item != null && old(items) == [item] + items
    {
      item := head;
      if item != null { Remove(item, 0); }
    }

    method MoveToHead(item: Item<T>, ghost at: nat)
      requires Valid() && at < |items| && items[at] == item
      modifies this, items`prev, items`next
      ensures Valid() && items == [item] + RemoveAt(old(items), at)
    {
      ghost var was := items;
      Ends(was, at);
      if head == item { return; }
      var before := item.prev;
      LinkFirst(item, head, was, at);
      RemoveAtIs(was, at);
      hide RemoveAt, Distinct;
      items := [item] + RemoveAt(was, at);
      head := item;
      if tail == item { tail := before; }
    }

    method MoveToTail(item: Item<T>, ghost at: nat)
      requires Valid() && at < |items| && items[at] == item
      modifies this, items`prev, items`next
      ensures Valid() && items == RemoveAt(old(items), at) + [item]
    {
      ghost var was := items;
      Ends(was, at);
      if tail == item { return; }
      var after := item.next;
      LinkLast(item, tail, was, at);
      RemoveAtIs(was, at);
      hide RemoveAt, Distinct;
      items := RemoveAt(was, at) + [item];
      tail := item;
      if head == item { head := after; }
    }

    /** Following `next` from the head. */
    method Forward() returns (s: seq<Item<T>>)
      requires Valid()
      ensures s == items
    {
      s := [];
      var item := head;
      while item != null
        invariant |s| <= |items| && s == items[..|s|]
        invariant item == if |s| == |items| then null else items[|s|]
        decreases |items| - |s|
      {
        assert LinkOk(items, |s|);
        s := s + [item];
        item := item.next;
      }
    }

    /** Following `prev` from the tail. */
    method Backward() returns (s: seq<Item<T>>)
      requires Valid()
      ensures s == Reverse(items)
    {
      hide Reverse, Distinct;
      s := [];
      var item := tail;
      ghost var left: nat := |items|;
      assert items[..left] == items;
      ReverseNothing<Item<T>>();
      while item != null
        invariant left <= |items| && s + Reverse(items[..left]) == Reverse(items)
        invariant item == if left == 0 then null else items[left - 1]
        decreases left
      {
        assert LinkOk(items, left - 1);
        ReverseStep(items, left);
        s := s + [item];
        item := item.prev;
        left := left - 1;
      }
    }
  }

  /** An item without a left neighbour is the first, one without a right neighbour the last. */
  lemma Ends<T>(items: seq<Item<T>>, at: nat)
    requires Linked(items) && at < |items|
    ensures items[at].prev == Before(items, at) && items[at].next == After(items, at)
    ensures (items[at].prev == null <==> at == 0) && (items[at].next == null <==> at == |items| - 1)
    ensures (items[at] == items[0] <==> at == 0) && (items[at] == items[|items| - 1] <==> at == |items| - 1)
  {
    assert LinkOk(items, at);
  }
}
