/**
 Iteration over the adaptive radix tree: the whole tree in key order, and the keys under a prefix.
 */
module ArtIter {

  import opened ArtLayout
  import opened ArtTree
  import opened ArtInsert

  // ----- The order of keys -----

  /** Lexicographic order of byte strings. */
  predicate LexLess(a: Key, b: Key) {
    b != [] && (a == [] || a[0] < b[0] || (a[0] == b[0] && LexLess(a[1..], b[1..])))
  }

  lemma {:induction false} LexAt(a: Key, b: Key, e: nat)
    requires AgreeTo(a, b, e) && e < |a| && e < |b| && a[e] < b[e]
    ensures LexLess(a, b)
    decreases e
  {
    if e > 0 { LexAt(a[1..], b[1..], e - 1); }
  }

  predicate SortedPairs<V>(s: seq<(Key, V)>) {
    forall i, j :: 0 <= i < j < |s| ==> LexLess(s[i].0, s[j].0)
  }

  lemma SortedConcat<V>(a: seq<(Key, V)>, b: seq<(Key, V)>)
    requires SortedPairs(a) && SortedPairs(b)
    requires forall i, j :: 0 <= i < |a| && 0 <= j < |b| ==> LexLess(a[i].0, b[j].0)
    ensures SortedPairs(a + b)
  {
    hide LexLess;
  }

  // ----- All leaves, in the order of their branch bytes -----

  function Leaves<V>(n: Node<V>): seq<(Key, V)>
    decreases n, 257
  {
    if n.Leaf? then [(n.key, n.value)] else LeavesBelow(n, 256)
  }

  /** The leaves under the children of the bytes below `c`. */
  function LeavesBelow<V>(n: Node<V>, c: nat): seq<(Key, V)>
    requires n.Inner? && c <= 256
    decreases n, c
  {
    if c == 0 then []
    else LeavesBelow(n, c - 1) + (if Get(n.body, c - 1).Some? then Leaves(Get(n.body, c - 1).value) else [])
  }

  lemma {:induction false} BelowHas<V>(n: Node<V>, c: nat, k: Key, v: V)
    requires n.Inner? && c <= 256
    ensures (k, v) in LeavesBelow(n, c) <==>
            exists e: Byte :: e < c && Get(n.body, e).Some? && HasLeaf(Get(n.body, e).value, k, v)
    decreases Weight(n), c
  {
    if c > 0 {
      hide Get, Leaves, HasLeaf, Weight;
      BelowHas(n, c - 1, k, v);
      if Get(n.body, c - 1).Some? {
        WeightDrops(n, c - 1);
        LeavesHas(Get(n.body, c - 1).value, k, v);
      }
    }
  }

  /** The listed pairs are the stored pairs. */
  lemma {:induction false} LeavesHas<V>(n: Node<V>, k: Key, v: V)
    ensures (k, v) in Leaves(n) <==> HasLeaf(n, k, v)
    decreases Weight(n), 257
  {
    if n.Inner? {
      BelowHas(n, 256, k, v);
      hide Get, LeavesBelow, Weight;
    }
  }

  lemma {:induction false} BelowSorted<V>(n: Node<V>, pre: Key, c: nat)
    requires n.Inner? && Inv(n, pre) && c <= 256
    ensures SortedPairs(LeavesBelow(n, c))
    decreases Weight(n), c
  {
    hide Inv, Get, Leaves, HasLeaf, Weight, SortedPairs, Path;
    if c == 0 {
      NothingSorted(n);
    } else {
      BelowSorted(n, pre, c - 1);
      if Get(n.body, c - 1).Some? {
        var child := Get(n.body, c - 1).value;
        WeightDrops(n, c - 1);
        InvInner(n, pre);
        LeavesSorted(child, Path(n, pre) + [c - 1]);
        var a, b := LeavesBelow(n, c - 1), Leaves(child);
        forall i, j | 0 <= i < |a| && 0 <= j < |b| ensures LexLess(a[i].0, b[j].0) {
          assert (a[i].0, a[i].1) in a && (b[j].0, b[j].1) in b;
          BelowHas(n, c - 1, a[i].0, a[i].1);
          LeavesHas(child, b[j].0, b[j].1);
          var e: Byte :| e < c - 1 && Get(n.body, e).Some? && HasLeaf(Get(n.body, e).value, a[i].0, a[i].1);
          BranchOrder(n, pre, e, a[i].0, a[i].1, c - 1, b[j].0, b[j].1);
        }
        SortedConcat(a, b);
      } else {
        assert LeavesBelow(n, c) == LeavesBelow(n, c - 1);
      }
    }
  }

  lemma NothingSorted<V>(n: Node<V>)
    requires n.Inner?
    ensures SortedPairs(LeavesBelow(n, 0))
  {
  }

  lemma BranchOrder<V>(n: Node<V>, pre: Key, c: Byte, j: Key, v: V, d: Byte, k: Key, w: V)
    requires n.Inner? && Inv(n, pre) && c < d
    requires Get(n.body, c).Some? && HasLeaf(Get(n.body, c).value, j, v)
    requires Get(n.body, d).Some? && HasLeaf(Get(n.body, d).value, k, w)
    ensures LexLess(j, k)
  {
    hide Inv, Get, HasLeaf, Path;
    var path := Path(n, pre);
    InvInner(n, pre);
    LeafExtends(Get(n.body, c).value, path + [c], j, v);
    LeafExtends(Get(n.body, d).value, path + [d], k, w);
    BytesAfter(path, c, j);
    BytesAfter(path, d, k);
    LexAt(j, k, |path|);
  }

  lemma BytesAfter(path: Key, c: Byte, k: Key)
    requires path + [c] <= k
    ensures |path| < |k| && k[|path|] == c && forall i :: 0 <= i < |path| ==> k[i] == path[i]
  {
    assert k[|path|] == (path + [c])[|path|];
    assert forall i :: 0 <= i < |path| ==> k[i] == (path + [c])[i];
  }

  /** The listed keys are strictly increasing, so every pair is listed once. */
  lemma {:induction false} LeavesSorted<V>(n: Node<V>, pre: Key)
    requires Inv(n, pre)
    ensures SortedPairs(Leaves(n))
    decreases Weight(n), 257
  {
    if n.Inner? { BelowSorted(n, pre, 256); }
  }

  // ----- The iteration -----

  /** Visiting pairs one by one until the callback, given all visited so far, returns non-zero. */
  function Upto<V>(log: seq<(Key, V)>, pairs: seq<(Key, V)>, cb: seq<(Key, V)> -> int): (seq<(Key, V)>, int)
    decreases |pairs|
  {
    if pairs == [] then (log, 0) else
    var log' := log + [pairs[0]];
    if cb(log') != 0 then (log', cb(log')) else Upto(log', pairs[1..], cb)
  }

  lemma {:induction false} UptoConcat<V>(log: seq<(Key, V)>, a: seq<(Key, V)>, b: seq<(Key, V)>, cb: seq<(Key, V)> -> int)
    ensures Upto(log, a + b, cb) == var (log', r) := Upto(log, a, cb); if r != 0 then (log', r) else Upto(log', b, cb)
    decreases |a|
  {
    if a == [] {
      assert a + b == b;
    } else {
      assert (a + b)[1..] == a[1..] + b;
      var log' := log + [a[0]];
      if cb(log') == 0 { UptoConcat(log', a[1..], b, cb); }
    }
  }

  /** A callback that never stops sees every pair. */
  lemma {:induction false} UptoAll<V(!new)>(log: seq<(Key, V)>, pairs: seq<(Key, V)>, cb: seq<(Key, V)> -> int)
    requires forall l :: cb(l) == 0
    ensures Upto(log, pairs, cb) == (log + pairs, 0)
    decreases |pairs|
  {
    if pairs == [] {
      assert log + pairs == log;
    } else {
      UptoAll(log + [pairs[0]], pairs[1..], cb);
      assert log + [pairs[0]] + pairs[1..] == log + pairs;
    }
  }

  /**
   The callback, given all visited so far, has seen the pairs one after the other: it answered 0 to all
   but the last, and the walk ended at its first other answer, which is the result, or at the last pair.
   */
  ghost predicate Walked<V>(log: seq<(Key, V)>, pairs: seq<(Key, V)>, cb: seq<(Key, V)> -> int, log': seq<(Key, V)>, r: int) {
    && log <= log' <= log + pairs
    && (forall i :: |log| < i < |log'| ==> cb((log + pairs)[..i]) == 0)
    && (if r == 0 then log' == log + pairs && (pairs != [] ==> cb(log') == 0) else |log| < |log'| && r == cb(log'))
  }

  lemma {:induction false} UptoWalks<V>(log: seq<(Key, V)>, pairs: seq<(Key, V)>, cb: seq<(Key, V)> -> int)
    ensures Walked(log, pairs, cb, Upto(log, pairs, cb).0, Upto(log, pairs, cb).1)
    decreases |pairs|
  {
    if pairs == [] {
      assert log + pairs == log;
    } else {
      var more := log + [pairs[0]];
      assert more + pairs[1..] == log + pairs;
      assert (log + pairs)[..|log| + 1] == more;
      UptoWalks(more, pairs[1..], cb);
    }
  }

  /** The leaves under the first `i` children of a small layout. */
  function KidLeaves<V>(kids: seq<Node<V>>, i: nat): seq<(Key, V)>
    requires i <= |kids|
  {
    if i == 0 then [] else KidLeaves(kids, i - 1) + Leaves(kids[i - 1])
  }

  /** The position order of a small layout is the byte order. */
  lemma {:induction false} SmallOrder<V>(n: Node<V>, keys: seq<Byte>, kids: seq<Node<V>>, c: nat, i: nat)
    requires n.Inner? && (n.body == Node4(keys, kids) || n.body == Node16(keys, kids)) && SmallOk(keys, kids)
    requires c <= 256 && i <= |keys|
    requires (forall j :: 0 <= j < i ==> keys[j] < c) && (forall j :: i <= j < |keys| ==> keys[j] >= c)
    ensures LeavesBelow(n, c) == KidLeaves(kids, i)
    decreases c
  {
    hide Leaves, FindKey;
    if c > 0 {
      if i > 0 && keys[i - 1] == c - 1 {
        FindKeyUnique(keys, i - 1);
        SmallOrder(n, keys, kids, c - 1, i - 1);
      } else {
        assert FindKey(keys, c - 1) == |keys|;
        SmallOrder(n, keys, kids, c - 1, i);
      }
    }
  }

  lemma SmallIs<V>(n: Node<V>, keys: seq<Byte>, kids: seq<Node<V>>)
    requires n.Inner? && (n.body == Node4(keys, kids) || n.body == Node16(keys, kids)) && SmallOk(keys, kids)
    ensures Leaves(n) == KidLeaves(kids, |kids|)
  {
    SmallOrder(n, keys, kids, 256, |keys|);
  }

  /** A walk that was stopped within the first children is stopped. */
  lemma {:induction false} KidPrefix<V>(kids: seq<Node<V>>, i: nat, cb: seq<(Key, V)> -> int, log: seq<(Key, V)>)
    requires i <= |kids| && Upto(log, KidLeaves(kids, i), cb).1 != 0
    ensures Upto(log, KidLeaves(kids, |kids|), cb) == Upto(log, KidLeaves(kids, i), cb)
    decreases |kids| - i
  {
    hide Upto, Leaves;
    if i < |kids| {
      UptoConcat(log, KidLeaves(kids, i), Leaves(kids[i]), cb);
      KidPrefix(kids, i + 1, cb, log);
    }
  }

  lemma {:induction false} BelowPrefix<V>(n: Node<V>, c: nat, cb: seq<(Key, V)> -> int, log: seq<(Key, V)>)
    requires n.Inner? && c <= 256 && Upto(log, LeavesBelow(n, c), cb).1 != 0
    ensures Upto(log, LeavesBelow(n, 256), cb) == Upto(log, LeavesBelow(n, c), cb)
    decreases 256 - c
  {
    hide Upto, Leaves, Get;
    if c < 256 {
      UptoConcat(log, LeavesBelow(n, c), if Get(n.body, c).Some? then Leaves(Get(n.body, c).value) else [], cb);
      BelowPrefix(n, c + 1, cb, log);
    }
  }

  /** The lowest leaf is the first of the order. */
  lemma {:induction false} MinimumIsFirst<V>(n: Node<V>, pre: Key)
    requires Inv(n, pre)
    ensures Leaves(n) != [] && Leaves(n)[0].0 == MinKey(n)
    decreases Weight(n)
  {
    if n.Inner? {
      InvInner(n, pre);
      var c := FirstIs(n.body);
      WeightDrops(n, c);
      MinimumIsFirst(First(n.body).value, Path(n, pre) + [c]);
      hide Get, Inv, Leaves, Weight, First, Path;
      StartsAt(n, c, 256);
      LeavesInner(n);
      assert MinKey(n) == MinKey(First(n.body).value);
    }
  }

  lemma LeavesInner<V>(n: Node<V>)
    requires n.Inner?
    ensures Leaves(n) == LeavesBelow(n, 256)
  {
  }

  lemma {:induction false} StartsAt<V>(n: Node<V>, c: Byte, d: nat)
    requires n.Inner? && d <= 256 && Get(n.body, c).Some? && Leaves(Get(n.body, c).value) != []
    requires forall e: Byte :: e < c ==> Get(n.body, e).None?
    ensures if d <= c then LeavesBelow(n, d) == []
            else LeavesBelow(n, d) != [] && LeavesBelow(n, d)[0] == Leaves(Get(n.body, c).value)[0]
    decreases d
  {
    hide Get, Leaves;
    if d > 0 { StartsAt(n, c, d - 1); }
  }
}
