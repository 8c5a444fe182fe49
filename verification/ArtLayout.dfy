/**
 The four child layouts of an inner node of the adaptive radix tree (`art_spsc.c`), over an
 arbitrary type of children: finding, adding and removing a child, with the growth and
 shrinkage between layouts.  Each operation is proved to be the matching operation on the map
 from branch bytes to children.
 */
module ArtLayout {

  import opened Sequences

  type Byte = b: int | 0 <= b < 256

  datatype Option<T> = None | Some(value: T)

  /**
   The small layouts list their keys in order beside the children.  The 48 layout finds the
   slot of a byte through an index (0 for none, else the slot plus one).  The 256 layout has a
   slot per byte; its counter is a byte and wraps.
   */
  datatype Layout<T> =
    | Node4(keys: seq<Byte>, kids: seq<T>)
    | Node16(keys: seq<Byte>, kids: seq<T>)
    | Node48(count: nat, index: seq<nat>, slots: seq<Option<T>>)
    | Node256(count: nat, slots: seq<Option<T>>)

  // ----- Small sorted layouts -----

  predicate Sorted(keys: seq<Byte>) {
    forall i, j :: 0 <= i < j < |keys| ==> keys[i] < keys[j]
  }

  /** The first place of `c`, or the end. */
  function FindKey(keys: seq<Byte>, c: Byte): (i: nat)
    ensures i <= |keys|
    ensures i < |keys| ==> keys[i] == c
    ensures forall j :: 0 <= j < i ==> keys[j] != c
  {
    if keys == [] then 0 else if keys[0] == c then 0 else 1 + FindKey(keys[1..], c)
  }

  /** The first place whose key is above `c`, or the end. */
  function InsertPlace(keys: seq<Byte>, c: Byte): (i: nat)
    ensures i <= |keys|
    ensures i < |keys| ==> c < keys[i]
    ensures forall j :: 0 <= j < i ==> keys[j] <= c
  {
    if keys == [] then 0 else if c < keys[0] then 0 else 1 + InsertPlace(keys[1..], c)
  }

  function GetSmall<T>(keys: seq<Byte>, kids: seq<T>, c: Byte): Option<T> {
    var i := FindKey(keys, c);
    if i < |keys| && i < |kids| then Some(kids[i]) else None
  }

  // ----- Counting -----

  function CountSome<T>(slots: seq<Option<T>>): nat {
    if slots == [] then 0 else CountSome(slots[..|slots| - 1]) + (if slots[|slots| - 1].Some? then 1 else 0)
  }

  function CountNonzero(index: seq<nat>): nat {
    if index == [] then 0 else CountNonzero(index[..|index| - 1]) + (if index[|index| - 1] != 0 then 1 else 0)
  }

  lemma {:induction false} CountSomeUpdate<T>(slots: seq<Option<T>>, i: nat, x: Option<T>)
    requires i < |slots|
    ensures CountSome(slots[i := x]) == CountSome(slots) - (if slots[i].Some? then 1 else 0) + (if x.Some? then 1 else 0)
    decreases |slots|
  {
    var n, slots' := |slots| - 1, slots[i := x];
    if i == n {
      assert slots'[..n] == slots[..n];
    } else {
      assert slots'[..n] == slots[..n][i := x];
      CountSomeUpdate(slots[..n], i, x);
    }
  }

  lemma {:induction false} CountNonzeroUpdate(index: seq<nat>, i: nat, x: nat)
    requires i < |index|
    ensures CountNonzero(index[i := x]) == CountNonzero(index) - (if index[i] != 0 then 1 else 0) + (if x != 0 then 1 else 0)
    decreases |index|
  {
    var n, index' := |index| - 1, index[i := x];
    if i == n {
      assert index'[..n] == index[..n];
    } else {
      assert index'[..n] == index[..n][i := x];
      CountNonzeroUpdate(index[..n], i, x);
    }
  }

  lemma {:induction false} CountSomeBounds<T>(slots: seq<Option<T>>)
    ensures CountSome(slots) <= |slots|
    ensures CountSome(slots) == |slots| <==> forall i :: 0 <= i < |slots| ==> slots[i].Some?
    ensures CountSome(slots) == 0 <==> forall i :: 0 <= i < |slots| ==> slots[i].None?
    decreases |slots|
  {
    if slots != [] {
      CountSomeBounds(slots[..|slots| - 1]);
    }
  }

  /** Slot by slot, one sequence has a child where the other has an index. */
  lemma {:induction false} CountsAgree<T>(slots: seq<Option<T>>, index: seq<nat>)
    requires |slots| == |index| && forall i :: 0 <= i < |slots| ==> (slots[i].Some? <==> index[i] != 0)
    ensures CountSome(slots) == CountNonzero(index)
    decreases |slots|
  {
    if slots != [] {
      CountsAgree(slots[..|slots| - 1], index[..|index| - 1]);
    }
  }

  lemma {:induction false} CountNonzeroZeros(n: nat)
    ensures CountNonzero(seq(n, _ => 0)) == 0
  {
    if n > 0 {
      assert seq(n, _ => 0)[..n - 1] == seq(n - 1, _ => 0);
      CountNonzeroZeros(n - 1);
    }
  }

  /** The first empty slot. */
  function FirstFree<T>(slots: seq<Option<T>>): (i: nat)
    ensures i <= |slots|
    ensures i < |slots| ==> slots[i].None?
    ensures forall j :: 0 <= j < i ==> slots[j].Some?
  {
    if slots == [] then 0 else if slots[0].None? then 0 else 1 + FirstFree(slots[1..])
  }

  // ----- The layouts as maps -----

  function Get<T>(l: Layout<T>, c: Byte): Option<T> {
    match l
    case Node4(keys, kids) => GetSmall(keys, kids, c)
    case Node16(keys, kids) => GetSmall(keys, kids, c)
    case Node48(_, index, slots) =>
      if c < |index| && 0 < index[c] <= |slots| then slots[index[c] - 1] else None
    case Node256(_, slots) => if c < |slots| then slots[c] else None
  }

  predicate SmallOk<T>(keys: seq<Byte>, kids: seq<T>) {
    |keys| == |kids| && Sorted(keys)
  }

  predicate IndexOk<T>(index: seq<nat>, slots: seq<Option<T>>) {
    && |index| == 256 && |slots| == 48
    && (forall c :: 0 <= c < 256 && index[c] != 0 ==> index[c] <= 48 && slots[index[c] - 1].Some?)
    && (forall c, d :: 0 <= c < d < 256 && index[c] != 0 ==> index[c] != index[d])
  }

  predicate Wf<T>(l: Layout<T>) {
    match l
    case Node4(keys, kids) => SmallOk(keys, kids) && |keys| <= 4
    case Node16(keys, kids) => SmallOk(keys, kids) && |keys| <= 16
    case Node48(count, index, slots) =>
      IndexOk(index, slots) && count == CountNonzero(index) == CountSome(slots)
    case Node256(count, slots) => |slots| == 256 && count == CountSome(slots) % 256
  }

  /** The number of children. */
  function Size<T>(l: Layout<T>): nat {
    match l
    case Node4(keys, _) => |keys|
    case Node16(keys, _) => |keys|
    case Node48(count, _, _) => count
    case Node256(_, slots) => CountSome(slots)
  }

  /** The occupancy of a node of the tree. */
  predicate InRange<T>(l: Layout<T>) {
    match l
    case Node4(_, _) => 2 <= Size(l) <= 4
    case Node16(_, _) => 4 <= Size(l) <= 16
    case Node48(_, _, _) => 13 <= Size(l) <= 48
    case Node256(_, _) => 38 <= Size(l) <= 256
  }

  /** `l'` is `l` with `c` leading to `x`. */
  ghost predicate IsUpdate<T>(l: Layout<T>, l': Layout<T>, c: Byte, x: Option<T>) {
    Get(l', c) == x && forall d: Byte :: d != c ==> Get(l', d) == Get(l, d)
  }

  ghost predicate SameChildren<T>(l: Layout<T>, l': Layout<T>) {
    forall c: Byte :: Get(l', c) == Get(l, c)
  }

  // ----- Small layouts: adding and removing -----

  lemma FindKeyUnique(keys: seq<Byte>, i: nat)
    requires Sorted(keys) && i < |keys|
    ensures FindKey(keys, keys[i]) == i
  {
  }

  lemma InsertSorted(keys: seq<Byte>, c: Byte)
    requires Sorted(keys) && FindKey(keys, c) == |keys|
    ensures Sorted(InsertAt(keys, InsertPlace(keys, c), c))
  {
    hide InsertAt, FindKey, InsertPlace;
    InsertAtIs(keys, InsertPlace(keys, c), c);
  }

  lemma FindAfterInsert(keys: seq<Byte>, c: Byte, d: Byte)
    requires Sorted(keys) && FindKey(keys, c) == |keys|
    ensures var i, j := InsertPlace(keys, c), FindKey(keys, d);
            FindKey(InsertAt(keys, i, c), d) ==
            if d == c then i else if j == |keys| then |keys| + 1 else if j < i then j else j + 1
  {
    var i := InsertPlace(keys, c);
    InsertSorted(keys, c);
    hide InsertAt, FindKey, InsertPlace;
    InsertAtIs(keys, i, c);
    var keys' := InsertAt(keys, i, c);
    var j := FindKey(keys, d);
    if d == c {
      FindKeyUnique(keys', i);
    } else if j < |keys| {
      FindKeyUnique(keys', if j < i then j else j + 1);
    } else {
      assert forall k :: 0 <= k < |keys'| ==> keys'[k] != d;
    }
  }

  lemma GetAfterInsert<T>(keys: seq<Byte>, kids: seq<T>, c: Byte, x: T, d: Byte)
    requires SmallOk(keys, kids) && FindKey(keys, c) == |keys|
    ensures var i := InsertPlace(keys, c);
            GetSmall(InsertAt(keys, i, c), InsertAt(kids, i, x), d) == if d == c then Some(x) else GetSmall(keys, kids, d)
  {
    var i := InsertPlace(keys, c);
    hide InsertAt, FindKey, InsertPlace, Sorted;
    FindAfterInsert(keys, c, d);
    InsertAtIs(keys, i, c);
    InsertAtIs(kids, i, x);
  }

  lemma RemoveSorted(keys: seq<Byte>, i: nat)
    requires Sorted(keys) && i < |keys|
    ensures Sorted(RemoveAt(keys, i))
  {
    hide RemoveAt;
    RemoveAtIs(keys, i);
  }

  lemma GetAfterRemove<T>(keys: seq<Byte>, kids: seq<T>, c: Byte, d: Byte)
    requires SmallOk(keys, kids) && FindKey(keys, c) < |keys|
    ensures var i := FindKey(keys, c);
            GetSmall(RemoveAt(keys, i), RemoveAt(kids, i), d) == if d == c then None else GetSmall(keys, kids, d)
  {
    var i := FindKey(keys, c);
    RemoveSorted(keys, i);
    hide RemoveAt, FindKey;
    RemoveAtIs(keys, i);
    RemoveAtIs(kids, i);
    var keys' := RemoveAt(keys, i);
    var j := FindKey(keys, d);
    if d != c && j < |keys| {
      FindKeyUnique(keys', if j < i then j else j - 1);
    } else {
      assert forall k :: 0 <= k < |keys'| ==> keys'[k] != d;
    }
  }

  // ----- Growing and shrinking -----

  function SomeAll<T>(kids: seq<T>): (r: seq<Option<T>>)
    ensures |r| == |kids| && forall i :: 0 <= i < |kids| ==> r[i] == Some(kids[i])
  {
    seq(|kids|, i requires 0 <= i < |kids| => Some(kids[i]))
  }

  /** Children in the first slots, the rest empty. */
  function Padded<T>(kids: seq<T>, n: nat): (r: seq<Option<T>>)
    requires |kids| <= n
    ensures |r| == n
    ensures forall i :: 0 <= i < |kids| ==> r[i] == Some(kids[i])
    ensures forall i :: |kids| <= i < n ==> r[i] == None
  {
    SomeAll(kids) + seq(n - |kids|, _ => None)
  }

  lemma {:induction false} CountPadded<T>(kids: seq<T>, n: nat)
    requires |kids| <= n
    ensures CountSome(Padded(kids, n)) == |kids|
    decreases n
  {
    hide Padded;
    var p := Padded(kids, n);
    if n > 0 {
      if |kids| == n {
        assert p[..n - 1] == Padded(kids[..n - 1], n - 1);
        CountPadded(kids[..n - 1], n - 1);
      } else {
        assert p[..n - 1] == Padded(kids, n - 1);
        CountPadded(kids, n - 1);
      }
    }
  }

  /** The index of the first `n` keys of a small layout. */
  function Indexed(keys: seq<Byte>, n: nat): (r: seq<nat>)
    requires n <= |keys|
    ensures |r| == 256
  {
    if n == 0 then seq(256, _ => 0) else Indexed(keys, n - 1)[keys[n - 1] := n]
  }

  lemma {:induction false} IndexedAt(keys: seq<Byte>, n: nat, c: Byte)
    requires n <= |keys| && Sorted(keys)
    ensures Indexed(keys, n)[c] == if FindKey(keys, c) < n then FindKey(keys, c) + 1 else 0
  {
    hide FindKey;
    if n > 0 {
      IndexedAt(keys, n - 1, c);
      FindKeyUnique(keys, n - 1);
    }
  }

  lemma {:induction false} IndexedCount(keys: seq<Byte>, n: nat)
    requires n <= |keys| && Sorted(keys)
    ensures CountNonzero(Indexed(keys, n)) == n
  {
    hide FindKey, CountNonzero;
    if n == 0 {
      CountNonzeroZeros(256);
    } else {
      IndexedCount(keys, n - 1);
      IndexedAt(keys, n - 1, keys[n - 1]);
      FindKeyUnique(keys, n - 1);
      CountNonzeroUpdate(Indexed(keys, n - 1), keys[n - 1], n);
    }
  }

  function Grow16<T>(keys: seq<Byte>, kids: seq<T>): Layout<T>
    requires |kids| <= 48
  {
    Node48(|keys|, Indexed(keys, |keys|), Padded(kids, 48))
  }

  lemma IndexedOk<T>(keys: seq<Byte>, slots: seq<Option<T>>)
    requires Sorted(keys) && |slots| == 48 && |keys| <= 48
    requires forall i :: 0 <= i < |keys| ==> slots[i].Some?
    ensures IndexOk(Indexed(keys, |keys|), slots)
  {
    hide Indexed, FindKey;
    var index := Indexed(keys, |keys|);
    forall c: Byte
      ensures index[c] == if FindKey(keys, c) < |keys| then FindKey(keys, c) + 1 else 0
      ensures FindKey(keys, c) < |keys| ==> keys[FindKey(keys, c)] == c
    {
      IndexedAt(keys, |keys|, c);
    }
  }

  lemma Grow16Keeps<T>(keys: seq<Byte>, kids: seq<T>)
    requires SmallOk(keys, kids) && |kids| <= 48
    ensures Wf(Grow16(keys, kids)) && Size(Grow16(keys, kids)) == |keys|
    ensures SameChildren(Node16(keys, kids), Grow16(keys, kids))
  {
    IndexedCount(keys, |keys|);
    CountPadded(kids, 48);
    hide Indexed, Padded, CountNonzero, CountSome, FindKey, IndexOk;
    IndexedOk(keys, Padded(kids, 48));
    forall c: Byte ensures Get(Grow16(keys, kids), c) == Get(Node16(keys, kids), c) {
      IndexedAt(keys, |keys|, c);
    }
  }

  function Grow48<T>(count: nat, index: seq<nat>, slots: seq<Option<T>>): Layout<T>
    requires IndexOk(index, slots)
  {
    Node256(count, seq(256, c requires 0 <= c < 256 => if index[c] != 0 then slots[index[c] - 1] else None))
  }

  lemma Grow48Keeps<T>(count: nat, index: seq<nat>, slots: seq<Option<T>>)
    requires Wf(Node48(count, index, slots))
    ensures Wf(Grow48(count, index, slots)) && Size(Grow48(count, index, slots)) == count
    ensures SameChildren(Node48(count, index, slots), Grow48(count, index, slots))
  {
    CountsAgree(Grow48(count, index, slots).slots, index);
    CountSomeBounds(slots);
  }

  /** The packed index and children of the first `n` byte slots, in order. */
  function Packed<T>(slots: seq<Option<T>>, n: nat): (r: (seq<nat>, seq<T>))
    requires n <= |slots|
    ensures |r.0| == n
  {
    if n == 0 then ([], []) else
    var (index, kids) := Packed(slots, n - 1);
    match slots[n - 1]
    case Some(x) => (index + [|kids| + 1], kids + [x])
    case None => (index + [0], kids)
  }

  /** The index leads every byte with a child to that child. */
  ghost predicate PackFits<T>(slots: seq<Option<T>>, n: nat, index: seq<nat>, kids: seq<T>)
    requires n <= |slots| && |index| == n
  {
    forall c :: 0 <= c < n ==>
      && (index[c] != 0 <==> slots[c].Some?)
      && (index[c] != 0 ==> index[c] <= |kids| && Some(kids[index[c] - 1]) == slots[c])
  }

  predicate PackDistinct(index: seq<nat>) {
    forall c, d :: 0 <= c < d < |index| && index[c] != 0 ==> index[c] != index[d]
  }

  lemma {:induction false} PackedCounts<T>(slots: seq<Option<T>>, n: nat)
    requires n <= |slots|
    ensures var (index, kids) := Packed(slots, n); |kids| == CountSome(slots[..n]) == CountNonzero(index)
  {
    if n > 0 {
      PackedCounts(slots, n - 1);
      assert slots[..n][..n - 1] == slots[..n - 1];
      assert Packed(slots, n).0[..n - 1] == Packed(slots, n - 1).0;
    }
  }

  lemma {:induction false} PackedIs<T>(slots: seq<Option<T>>, n: nat)
    requires n <= |slots|
    ensures var (index, kids) := Packed(slots, n);
            && PackFits(slots, n, index, kids) && PackDistinct(index) && forall c :: 0 <= c < n ==> index[c] <= |kids|
  {
    if n > 0 {
      PackedIs(slots, n - 1);
    }
  }

  function Shrink256<T>(count: nat, slots: seq<Option<T>>): Layout<T>
    requires |slots| == 256 && |Packed(slots, 256).1| <= 48
  {
    var (index, kids) := Packed(slots, 256);
    Node48(count, index, Padded(kids, 48))
  }

  lemma Shrink256Keeps<T>(slots: seq<Option<T>>)
    requires |slots| == 256 && CountSome(slots) <= 48
    ensures |Packed(slots, 256).1| <= 48
    ensures var l' := Shrink256(CountSome(slots), slots);
            Wf(l') && Size(l') == CountSome(slots) && SameChildren(Node256(CountSome(slots) % 256, slots), l')
  {
    hide Packed, Padded, CountSome, CountNonzero;
    PackedIs(slots, 256);
    PackedCounts(slots, 256);
    assert slots[..256] == slots;
    CountPadded(Packed(slots, 256).1, 48);
  }

  /** The keys and children of the first `n` bytes of an index, in order. */
  function Listed<T>(index: seq<nat>, slots: seq<Option<T>>, n: nat): (r: (seq<Byte>, seq<T>))
    requires IndexOk(index, slots) && n <= 256
    ensures |r.0| == |r.1|
  {
    if n == 0 then ([], []) else
    var (keys, kids) := Listed(index, slots, n - 1);
    if index[n - 1] != 0 then (keys + [n - 1], kids + [slots[index[n - 1] - 1].value]) else (keys, kids)
  }

  /** Every listed key leads to its child. */
  ghost predicate ListFits<T>(index: seq<nat>, slots: seq<Option<T>>, n: nat, keys: seq<Byte>, kids: seq<T>)
    requires IndexOk(index, slots) && |keys| == |kids|
  {
    forall i :: 0 <= i < |keys| ==> keys[i] < n && index[keys[i]] != 0 && slots[index[keys[i]] - 1] == Some(kids[i])
  }

  lemma {:induction false} ListedCounts<T>(index: seq<nat>, slots: seq<Option<T>>, n: nat)
    requires IndexOk(index, slots) && n <= 256
    ensures |Listed(index, slots, n).0| == CountNonzero(index[..n])
    ensures forall c: Byte :: c < n && index[c] != 0 ==> c in Listed(index, slots, n).0
  {
    if n > 0 {
      ListedCounts(index, slots, n - 1);
      assert index[..n][..n - 1] == index[..n - 1];
    }
  }

  lemma {:induction false} ListedIs<T>(index: seq<nat>, slots: seq<Option<T>>, n: nat)
    requires IndexOk(index, slots) && n <= 256
    ensures var (keys, kids) := Listed(index, slots, n); Sorted(keys) && ListFits(index, slots, n, keys, kids)
  {
    if n > 0 {
      ListedIs(index, slots, n - 1);
    }
  }

  function Shrink48<T>(index: seq<nat>, slots: seq<Option<T>>): Layout<T>
    requires IndexOk(index, slots)
  {
    var (keys, kids) := Listed(index, slots, 256);
    Node16(keys, kids)
  }

  lemma Shrink48Keeps<T>(count: nat, index: seq<nat>, slots: seq<Option<T>>)
    requires Wf(Node48(count, index, slots)) && count <= 16
    ensures Wf(Shrink48(index, slots)) && Size(Shrink48(index, slots)) == count
    ensures SameChildren(Node48(count, index, slots), Shrink48(index, slots))
  {
    ListedIs(index, slots, 256);
    ListedCounts(index, slots, 256);
    assert index[..256] == index;
    hide Listed, CountNonzero, CountSome;
    var l' := Shrink48(index, slots);
    forall c: Byte ensures Get(l', c) == Get(Node48(count, index, slots), c) {
      var i := FindKey(l'.keys, c);
      assert i < |l'.keys| <==> index[c] != 0;
    }
  }

  // ----- Adding a child -----

  function Add256<T>(count: nat, slots: seq<Option<T>>, c: Byte, x: T): Layout<T>
    requires |slots| == 256
  {
    Node256((count + 1) % 256, slots[c := Some(x)])
  }

  function Add48<T>(count: nat, index: seq<nat>, slots: seq<Option<T>>, c: Byte, x: T): Layout<T>
    requires Wf(Node48(count, index, slots))
  {
    if count < 48 then
      CountSomeBounds(slots);
      var pos := FirstFree(slots);
      Node48(count + 1, index[c := pos + 1], slots[pos := Some(x)])
    else
      Add256(count, Grow48(count, index, slots).slots, c, x)
  }

  function Add16<T>(keys: seq<Byte>, kids: seq<T>, c: Byte, x: T): Layout<T>
    requires SmallOk(keys, kids) && |keys| <= 16
  {
    if |keys| < 16 then
      var i := InsertPlace(keys, c);
      Node16(InsertAt(keys, i, c), InsertAt(kids, i, x))
    else
      Grow16Keeps(keys, kids);
      var Node48(count, index, slots) := Grow16(keys, kids);
      Add48(count, index, slots, c, x)
  }

  function Add4<T>(keys: seq<Byte>, kids: seq<T>, c: Byte, x: T): Layout<T>
    requires SmallOk(keys, kids) && |keys| <= 4
  {
    if |keys| < 4 then
      var i := InsertPlace(keys, c);
      Node4(InsertAt(keys, i, c), InsertAt(kids, i, x))
    else
      Add16(keys, kids, c, x)
  }

  function Add<T>(l: Layout<T>, c: Byte, x: T): Layout<T>
    requires Wf(l)
  {
    match l
    case Node4(keys, kids) => Add4(keys, kids, c, x)
    case Node16(keys, kids) => Add16(keys, kids, c, x)
    case Node48(count, index, slots) => Add48(count, index, slots, c, x)
    case Node256(count, slots) => Add256(count, slots, c, x)
  }

  lemma SmallAdd<T>(keys: seq<Byte>, kids: seq<T>, c: Byte, x: T)
    requires SmallOk(keys, kids) && FindKey(keys, c) == |keys|
    ensures var i := InsertPlace(keys, c);
            var keys', kids' := InsertAt(keys, i, c), InsertAt(kids, i, x);
            && SmallOk(keys', kids') && |keys'| == |keys| + 1 && GetSmall(keys', kids', c) == Some(x)
            && forall d: Byte :: d != c ==> GetSmall(keys', kids', d) == GetSmall(keys, kids, d)
  {
    InsertSorted(keys, c);
    InsertAtIs(keys, InsertPlace(keys, c), c);
    InsertAtIs(kids, InsertPlace(keys, c), x);
    hide InsertAt, GetSmall, InsertPlace;
    forall d: Byte
      ensures var i := InsertPlace(keys, c);
              GetSmall(InsertAt(keys, i, c), InsertAt(kids, i, x), d) == if d == c then Some(x) else GetSmall(keys, kids, d)
    {
      GetAfterInsert(keys, kids, c, x, d);
    }
  }

  lemma Add256Keeps<T>(count: nat, slots: seq<Option<T>>, c: Byte, x: T)
    requires Wf(Node256(count, slots)) && slots[c].None?
    ensures var l' := Add256(count, slots, c, x);
            Wf(l') && Size(l') == CountSome(slots) + 1 && IsUpdate(Node256(count, slots), l', c, Some(x))
  {
    CountSomeUpdate(slots, c, Some(x));
  }

  lemma Add48Keeps<T>(count: nat, index: seq<nat>, slots: seq<Option<T>>, c: Byte, x: T)
    requires Wf(Node48(count, index, slots)) && index[c] == 0
    ensures var l' := Add48(count, index, slots, c, x);
            Wf(l') && Size(l') == count + 1 && IsUpdate(Node48(count, index, slots), l', c, Some(x))
    ensures Add48(count, index, slots, c, x).Node256? ==> count >= 48
  {
    CountSomeBounds(slots);
    if count < 48 {
      var pos := FirstFree(slots);
      CountSomeUpdate(slots, pos, Some(x));
      CountNonzeroUpdate(index, c, pos + 1);
      hide CountSome, CountNonzero, FirstFree;
      assert forall d :: 0 <= d < 256 && index[d] != 0 ==> index[d] != pos + 1;
    } else {
      Grow48Keeps(count, index, slots);
      Add256Keeps(count, Grow48(count, index, slots).slots, c, x);
    }
  }

  lemma Add16Keeps<T>(keys: seq<Byte>, kids: seq<T>, c: Byte, x: T)
    requires Wf(Node16(keys, kids)) && FindKey(keys, c) == |keys|
    ensures var l' := Add16(keys, kids, c, x);
            Wf(l') && Size(l') == |keys| + 1 && IsUpdate(Node16(keys, kids), l', c, Some(x))
    ensures Add16(keys, kids, c, x).Node16? || (Add16(keys, kids, c, x).Node48? && |keys| == 16)
  {
    if |keys| < 16 {
      SmallAdd(keys, kids, c, x);
      hide InsertAt, GetSmall, InsertPlace;
    } else {
      Grow16Keeps(keys, kids);
      var Node48(count, index, slots) := Grow16(keys, kids);
      assert Get(Grow16(keys, kids), c) == GetSmall(keys, kids, c);
      hide Grow16, GetSmall, CountSome, CountNonzero, FirstFree;
      Add48Keeps(count, index, slots, c, x);
    }
  }

  /** Adding a child at a new byte adds it to the map and nothing else, whatever the layout becomes. */
  lemma AddKeeps<T>(l: Layout<T>, c: Byte, x: T)
    requires Wf(l) && Get(l, c).None?
    ensures Wf(Add(l, c, x)) && Size(Add(l, c, x)) == Size(l) + 1
    ensures IsUpdate(l, Add(l, c, x), c, Some(x))
    ensures InRange(l) ==> InRange(Add(l, c, x))
  {
    match l
    case Node4(keys, kids) =>
      assert FindKey(keys, c) == |keys|;
      if |keys| < 4 {
        SmallAdd(keys, kids, c, x);
        hide InsertAt, GetSmall, InsertPlace;
      } else {
        Add16Keeps(keys, kids, c, x);
      }
    case Node16(keys, kids) => Add16Keeps(keys, kids, c, x);
    case Node48(count, index, slots) => Add48Keeps(count, index, slots, c, x);
    case Node256(count, slots) =>
      Add256Keeps(count, slots, c, x);
      CountSomeBounds(Add(l, c, x).slots);
  }

  // ----- Removing a child -----

  function Remove16<T>(keys: seq<Byte>, kids: seq<T>, c: Byte): Layout<T>
    requires SmallOk(keys, kids) && FindKey(keys, c) < |keys|
  {
    var i := FindKey(keys, c);
    var keys', kids' := RemoveAt(keys, i), RemoveAt(kids, i);
    if |keys'| == 3 then Node4(keys', kids') else Node16(keys', kids')
  }

  function Remove48<T>(count: nat, index: seq<nat>, slots: seq<Option<T>>, c: Byte): Layout<T>
    requires Wf(Node48(count, index, slots)) && index[c] != 0
  {
    Remove48Keeps(count, index, slots, c);
    var l := Node48(count - 1, index[c := 0], slots[index[c] - 1 := None]);
    if count - 1 == 12 then Shrink48(l.index, l.slots) else l
  }

  function Remove256<T>(count: nat, slots: seq<Option<T>>, c: Byte): Layout<T>
    requires Wf(Node256(count, slots)) && slots[c].Some?
  {
    var count', slots' := (count + 255) % 256, slots[c := None];
    if count' == 37 then
      Remove256Count(count, slots, c);
      Shrink256Keeps(slots');
      Shrink256(count', slots')
    else Node256(count', slots')
  }

  lemma Remove48Keeps<T>(count: nat, index: seq<nat>, slots: seq<Option<T>>, c: Byte)
    requires Wf(Node48(count, index, slots)) && index[c] != 0
    ensures count > 0
    ensures var l' := Node48(count - 1, index[c := 0], slots[index[c] - 1 := None]);
            Wf(l') && IsUpdate(Node48(count, index, slots), l', c, None)
  {
    CountSomeUpdate(slots, index[c] - 1, None);
    CountNonzeroUpdate(index, c, 0);
    hide CountSome, CountNonzero;
  }

  lemma Remove256Count<T>(count: nat, slots: seq<Option<T>>, c: Byte)
    requires Wf(Node256(count, slots)) && slots[c].Some?
    ensures CountSome(slots[c := None]) == CountSome(slots) - 1
    ensures (count + 255) % 256 == CountSome(slots) - 1
  {
    CountSomeUpdate(slots, c, None);
    CountSomeBounds(slots);
  }

  lemma Remove48Shrinks<T>(count: nat, index: seq<nat>, slots: seq<Option<T>>, c: Byte)
    requires Wf(Node48(count, index, slots)) && index[c] != 0
    ensures var l, l' := Node48(count, index, slots), Remove48(count, index, slots, c);
            && Wf(l') && Size(l') == count - 1 && IsUpdate(l, l', c, None) && (InRange(l) ==> InRange(l'))
  {
    Remove48Keeps(count, index, slots, c);
    hide CountSome, CountNonzero, IndexOk, Shrink48;
    var l1 := Node48(count - 1, index[c := 0], slots[index[c] - 1 := None]);
    if count - 1 == 12 {
      Shrink48Keeps(count - 1, l1.index, l1.slots);
      Shrink48Is(l1.index, l1.slots);
    }
  }

  lemma Shrink48Is<T>(index: seq<nat>, slots: seq<Option<T>>)
    requires IndexOk(index, slots)
    ensures Shrink48(index, slots).Node16?
  {
  }

  lemma Remove256Shrinks<T>(count: nat, slots: seq<Option<T>>, c: Byte)
    requires Wf(Node256(count, slots)) && slots[c].Some?
    ensures var l, l' := Node256(count, slots), Remove256(count, slots, c);
            && Wf(l') && Size(l') == CountSome(slots) - 1 && IsUpdate(l, l', c, None) && (InRange(l) ==> InRange(l'))
  {
    Remove256Count(count, slots, c);
    CountSomeBounds(slots);
    if (count + 255) % 256 == 37 {
      Shrink256Keeps(slots[c := None]);
      hide CountSome, Packed, Padded, CountNonzero, IndexOk;
    }
  }

  function Remove<T>(l: Layout<T>, c: Byte): Layout<T>
    requires Wf(l) && Get(l, c).Some?
  {
    match l
    case Node4(keys, kids) =>
      var i := FindKey(keys, c);
      Node4(RemoveAt(keys, i), RemoveAt(kids, i))
    case Node16(keys, kids) => Remove16(keys, kids, c)
    case Node48(count, index, slots) => Remove48(count, index, slots, c)
    case Node256(count, slots) => Remove256(count, slots, c)
  }

  lemma SmallRemove<T>(keys: seq<Byte>, kids: seq<T>, c: Byte)
    requires SmallOk(keys, kids) && FindKey(keys, c) < |keys|
    ensures var i := FindKey(keys, c);
            var keys', kids' := RemoveAt(keys, i), RemoveAt(kids, i);
            && SmallOk(keys', kids') && |keys'| == |keys| - 1 && GetSmall(keys', kids', c) == None
            && forall d: Byte :: d != c ==> GetSmall(keys', kids', d) == GetSmall(keys, kids, d)
  {
    var i := FindKey(keys, c);
    RemoveSorted(keys, i);
    RemoveAtIs(keys, i);
    RemoveAtIs(kids, i);
    hide RemoveAt, GetSmall;
    forall d: Byte
      ensures GetSmall(RemoveAt(keys, i), RemoveAt(kids, i), d) == if d == c then None else GetSmall(keys, kids, d)
    {
      GetAfterRemove(keys, kids, c, d);
    }
  }

  /** Removing a child removes it from the map and nothing else; only a Node4 can drop out of range, to one child. */
  lemma RemoveKeeps<T>(l: Layout<T>, c: Byte)
    requires Wf(l) && Get(l, c).Some?
    ensures Wf(Remove(l, c)) && Size(Remove(l, c)) == Size(l) - 1
    ensures IsUpdate(l, Remove(l, c), c, None)
    ensures InRange(l) ==> InRange(Remove(l, c)) || (Remove(l, c).Node4? && Size(Remove(l, c)) == 1)
  {
    match l
    case Node4(keys, kids) =>
      SmallRemove(keys, kids, c);
      hide RemoveAt, GetSmall;
    case Node16(keys, kids) =>
      SmallRemove(keys, kids, c);
      hide RemoveAt, GetSmall;
    case Node48(count, index, slots) => Remove48Shrinks(count, index, slots, c);
    case Node256(count, slots) => Remove256Shrinks(count, slots, c);
  }

  // ----- Writing a child pointer in place -----

  function Replace<T>(l: Layout<T>, c: Byte, x: T): Layout<T>
    requires Wf(l) && Get(l, c).Some?
  {
    match l
    case Node4(keys, kids) => Node4(keys, kids[FindKey(keys, c) := x])
    case Node16(keys, kids) => Node16(keys, kids[FindKey(keys, c) := x])
    case Node48(count, index, slots) => Node48(count, index, slots[index[c] - 1 := Some(x)])
    case Node256(count, slots) => Node256(count, slots[c := Some(x)])
  }

  lemma ReplaceSmall<T>(keys: seq<Byte>, kids: seq<T>, c: Byte, x: T, d: Byte)
    requires SmallOk(keys, kids) && FindKey(keys, c) < |keys|
    ensures GetSmall(keys, kids[FindKey(keys, c) := x], d) == if d == c then Some(x) else GetSmall(keys, kids, d)
  {
    hide FindKey;
  }

  lemma Replace48<T>(count: nat, index: seq<nat>, slots: seq<Option<T>>, c: Byte, x: T)
    requires Wf(Node48(count, index, slots)) && index[c] != 0
    ensures var l' := Node48(count, index, slots[index[c] - 1 := Some(x)]);
            Wf(l') && IsUpdate(Node48(count, index, slots), l', c, Some(x))
  {
    CountSomeUpdate(slots, index[c] - 1, Some(x));
    hide CountSome, CountNonzero;
  }

  lemma ReplaceKeeps<T>(l: Layout<T>, c: Byte, x: T)
    requires Wf(l) && Get(l, c).Some?
    ensures Wf(Replace(l, c, x)) && Size(Replace(l, c, x)) == Size(l)
    ensures IsUpdate(l, Replace(l, c, x), c, Some(x))
    ensures InRange(l) ==> InRange(Replace(l, c, x))
  {
    match l
    case Node4(keys, kids) =>
      forall d: Byte ensures Get(Replace(l, c, x), d) == if d == c then Some(x) else Get(l, d) { ReplaceSmall(keys, kids, c, x, d); }
    case Node16(keys, kids) =>
      forall d: Byte ensures Get(Replace(l, c, x), d) == if d == c then Some(x) else Get(l, d) { ReplaceSmall(keys, kids, c, x, d); }
    case Node48(count, index, slots) => Replace48(count, index, slots, c, x);
    case Node256(_, slots) => CountSomeUpdate(slots, c, Some(x));
  }

  // ----- The lowest and the highest child -----

  /** The first byte from `c` on whose entry is not 0, or the end. */
  function NextNonzero(index: seq<nat>, c: nat): (r: nat)
    requires c <= |index|
    ensures c <= r <= |index|
    ensures r < |index| ==> index[r] != 0
    ensures forall d :: c <= d < r ==> index[d] == 0
    decreases |index| - c
  {
    if c == |index| || index[c] != 0 then c else NextNonzero(index, c + 1)
  }

  /** The first byte from `c` on that has a child, or the end. */
  function NextSome<T>(slots: seq<Option<T>>, c: nat): (r: nat)
    requires c <= |slots|
    ensures c <= r <= |slots|
    ensures r < |slots| ==> slots[r].Some?
    ensures forall d :: c <= d < r ==> slots[d].None?
    decreases |slots| - c
  {
    if c == |slots| || slots[c].Some? then c else NextSome(slots, c + 1)
  }

  /** The child of the lowest byte. */
  function First<T>(l: Layout<T>): Option<T> {
    match l
    case Node4(_, kids) => if kids == [] then None else Some(kids[0])
    case Node16(_, kids) => if kids == [] then None else Some(kids[0])
    case Node48(_, index, slots) =>
      var c := NextNonzero(index, 0);
      if c < |index| && index[c] <= |slots| then slots[index[c] - 1] else None
    case Node256(_, slots) =>
      var c := NextSome(slots, 0);
      if c < |slots| then slots[c] else None
  }

  lemma {:induction false} SomeNonzero(index: seq<nat>)
    requires CountNonzero(index) > 0
    ensures exists c :: 0 <= c < |index| && index[c] != 0
    decreases |index|
  {
    var n := |index| - 1;
    if index[n] == 0 {
      SomeNonzero(index[..n]);
      var c :| 0 <= c < n && index[..n][c] != 0;
      assert index[c] != 0;
    }
  }

  /** A layout with children has a lowest byte, and `First` is its child. */
  lemma FirstIs<T>(l: Layout<T>) returns (c: Byte)
    requires Wf(l) && Size(l) > 0
    ensures Get(l, c).Some? && First(l) == Get(l, c)
    ensures forall d: Byte :: d < c ==> Get(l, d).None?
  {
    match l
    case Node4(keys, kids) =>
      c := keys[0];
      FindKeyUnique(keys, 0);
    case Node16(keys, kids) =>
      c := keys[0];
      FindKeyUnique(keys, 0);
    case Node48(_, index, slots) =>
      SomeNonzero(index);
      c := NextNonzero(index, 0);
    case Node256(_, slots) =>
      CountSomeBounds(slots);
      c := NextSome(slots, 0);
  }
}
