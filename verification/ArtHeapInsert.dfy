/** Insertion into the adaptive radix tree on the heap, in place. */
module ArtHeapInsert {

  import opened ArtLayout
  import opened ArtLayoutLoops
  import opened ArtMirror
  import opened ArtTree
  import I = ArtInsert
  import opened ArtInsert
  import opened ArtHeap
  import opened ArtHeapOps

  // ----- Comparing bytes -----

  /** The stored prefix bytes shared with the key. */
  method CheckPrefixLoop(partial: seq<Byte>, k: Key, d: nat, beyond: Beyond) returns (i: nat)
    ensures i == CheckPrefix(partial, k, d, beyond)
  {
    var n := if d <= |k| then Min(|partial|, |k| - d) else |partial|;
    i := 0;
    while i < n && partial[i] == KeyByte(k, d + i, beyond)
      invariant i <= n && Matching(partial, k, d, beyond, 0, n) == Matching(partial, k, d, beyond, i, n)
    {
      i := i + 1;
    }
  }

  method CommonLoop(a: Key, b: Key, from: nat) returns (i: nat)
    ensures i == CommonFrom(a, b, from)
  {
    i := from;
    while i < |a| && i < |b| && a[i] == b[i]
      invariant from <= i && CommonFrom(a, b, from) == CommonFrom(a, b, i)
      decreases |a| - i
    {
      i := i + 1;
    }
  }

  /** Where the key leaves the compressed prefix, also beyond the stored bytes. */
  method FindMismatch<V>(n: InnerNode<V>, k: Key, d: nat, beyond: Beyond, ghost pre: Key) returns (r: nat)
    requires Good(NodePtr(n)) && Inv(n.tree, pre)
    ensures n.tree.Inner? && r == PrefixMismatch(n.tree, k, d, beyond)
  {
    hide CheckPrefix, CommonFrom, Inv, MinKey;
    r := CheckPrefixLoop(n.partial, k, d, beyond);
    if n.partialLen > MAX_PREFIX && d <= |k| && r == Min(|n.partial|, |k| - d) {
      var l := FindMinimum(NodePtr(n), pre);
      var e := CommonLoop(l.key, k, d + r);
      r := e - d;
    }
  }

  // ----- New nodes over two children -----

  lemma TwoAdds<T>(c: Byte, x: T, d: Byte, y: T)
    ensures Wf(Empty<T>()) && Wf(Add(Empty(), c, x))
    ensures Add(Add(Empty(), c, x), d, y) == Two(c, x, d, y)
  {
    assert InsertPlace([], c) == 0;
    assert Add(Empty(), c, x) == Node4([c], [x]);
  }

  /** Two layouts of two children at the same bytes are alike, also when the bytes are equal. */
  lemma TwoMirrors<A, B>(c: Byte, x: A, x': B, d: Byte, y: A, y': B)
    ensures Mirrors(Two(c, x, d, y), Two(c, x', d, y'))
  {
    MirrorsAdd(Node4([c], [x]), Node4([c], [x']), d, y, y');
  }

  /** A new node with two children, added one after the other; of two at the same byte, the first is found. */
  method JoinTwo<V>(partialLen: nat, partial: seq<Byte>, c: Byte, x: Ptr<V>, d: Byte, y: Ptr<V>) returns (n: InnerNode<V>)
    requires Good(x) && Good(y) && Repr(x) !! Repr(y)
    ensures Good(NodePtr(n)) && fresh(n.repr - Repr(x) - Repr(y))
    ensures n.tree == Inner(partialLen, partial, Two(c, Tree(x), d, Tree(y)))
  {
    hide Get, Wf, Add, Two, NodeSound, Mirrors;
    TwoAdds(c, x, d, y);
    TwoMirrors(c, x, Tree(x), d, y, Tree(y));
    ObjInRepr(x);
    ObjInRepr(y);
    n := NewNode(partialLen, partial);
    var one := AddChild(n.body, c, x);
    n.body := one;
    var two := AddChild(n.body, d, y);
    n.body := two;
    n.tree := Inner(partialLen, partial, Two(c, Tree(x), d, Tree(y)));
    n.repr := {n} + Repr(x) + Repr(y);
    assert n !in old(Repr(x)) && n !in old(Repr(y));
    StillGood(x);
    StillGood(y);
    forall e: Byte
      ensures Get(n.body, e) == if e == c then Some(x) else if e == d then Some(y) else None
      ensures Get(n.tree.body, e) == if e == c then Some(Tree(x)) else if e == d then Some(Tree(y)) else None
    {
      TwoGet(c, x, d, y, e);
      TwoGet(c, Tree(x), d, Tree(y), e);
    }
    GoodIs(n);
  }

  /** A leaf that does not match becomes a node with the old and a new leaf. */
  method SplitLeafNode<V>(l: LeafNode<V>, k: Key, v: V, d: nat, beyond: Beyond) returns (n: InnerNode<V>)
    ensures Good(NodePtr(n)) && fresh(n.repr - {l})
    ensures n.tree == SplitLeaf(Leaf(l.key, l.value), k, v, d, beyond)
  {
    hide CommonFrom, Two, NodeSound, LeafByte;
    var l2 := new LeafNode(k, v);
    var e := CommonLoop(l.key, k, d);
    GoodLeaf(l);
    GoodLeaf(l2);
    n := JoinTwo(e - d, Take(Drop(k, d), Min(MAX_PREFIX, e - d)),
                 LeafByte(l.key, e, beyond), LeafPtr(l), LeafByte(k, e, beyond), LeafPtr(l2));
  }

  lemma GoodLeaf<V>(l: LeafNode<V>)
    ensures Good(LeafPtr(l))
  {
  }

  /** What the split prefix leaves to the old node, and the byte that leads to it. */
  method RestOfPrefix<V>(n: InnerNode<V>, d: nat, diff: nat, beyond: Beyond, ghost pre: Key) returns (c: Byte, rest: seq<Byte>)
    requires Good(NodePtr(n)) && n.tree.Inner? && Inv(n.tree, pre) && diff < n.tree.partialLen
    ensures c == SplitByte(n.tree, d, diff, beyond)
    ensures Shortened(n.tree, d, diff) == Inner(n.tree.partialLen - (diff + 1), rest, n.tree.body)
  {
    hide Inv, NodeSound, MinKey;
    HeaderIs(n);
    if n.partialLen <= MAX_PREFIX {
      c, rest := KeyByte(n.partial, diff, beyond), Drop(n.partial, diff + 1);
    } else {
      var l := FindMinimum(NodePtr(n), pre);
      c := KeyByte(l.key, d + diff, beyond);
      rest := Take(Drop(l.key, d + diff + 1), Min(MAX_PREFIX, n.partialLen - (diff + 1)));
    }
  }

  /** The prefix is split: the old node keeps the rest of it below a new node. */
  method SplitPrefixNode<V>(n: InnerNode<V>, k: Key, v: V, d: nat, diff: nat, beyond: Beyond, ghost pre: Key)
    returns (m: InnerNode<V>)
    requires Good(NodePtr(n)) && n.tree.Inner? && Inv(n.tree, pre) && diff < n.tree.partialLen
    modifies n
    ensures Good(NodePtr(m)) && fresh(m.repr - old(n.repr))
    ensures m.tree == SplitPrefix(old(n.tree), k, v, d, diff, beyond)
  {
    hide Inv, NodeSound, Two, SplitByte, Shortened, Get, KeyByte;
    HeaderIs(n);
    ghost var t := n.tree;
    var partialLen, partial := n.partialLen, n.partial;
    var c, rest := RestOfPrefix(n, d, diff, beyond, pre);
    var leaf := new LeafNode(k, v);
    StillGood(NodePtr(n));
    SetPrefix(n, partialLen - (diff + 1), rest);
    GoodLeaf(leaf);
    m := JoinTwo(diff, Take(partial, Min(MAX_PREFIX, diff)), c, NodePtr(n), KeyByte(k, d + diff, beyond), LeafPtr(leaf));
    assert m.tree == SplitPrefix(t, k, v, d, diff, beyond);
  }

  lemma HeaderIs<V>(n: InnerNode<V>)
    requires Good(NodePtr(n))
    ensures n in n.repr && n.tree.Inner? && n.tree.partialLen == n.partialLen && n.tree.partial == n.partial
  {
  }

  // ----- The recursion -----

  /**
   Insertion, whatever the key; the result is the pointer that the caller stores in place of `p`.
   */
  method Insert<V>(p: Ptr<V>, k: Key, v: V, d: nat, replace: bool, beyond: Beyond, ghost pre: Key)
    returns (r: Ptr<V>, found: Option<V>)
    requires Good(p) && Shaped(Tree(p)) && Inv(Tree(p), pre)
    modifies Repr(p)
    ensures Good(r) && fresh(Repr(r) - old(Repr(p)))
    ensures (Tree(r), found) == I.Insert(old(Tree(p)), k, v, d, replace, beyond)
    decreases Weight(Tree(p)), 1
  {
    hide Inv, Shaped, PrefixMismatch, Weight, NodeSound, I.Insert, SplitPrefix, Get;
    match p
    case LeafPtr(l) =>
      r, found := InsertIntoLeaf(l, k, v, d, replace, beyond);
    case NodePtr(n) =>
      HeaderIs(n);
      var diff := FindMismatch(n, k, d, beyond, pre);
      StillGood(p);
      if n.partialLen > 0 && diff < n.partialLen {
        InsertSplits(n.tree, k, v, d, replace, beyond);
        var m := SplitPrefixNode(n, k, v, d, diff, beyond, pre);
        r, found := NodePtr(m), None;
      } else {
        r, found := InsertBelowNode(n, k, v, d, replace, beyond, pre);
      }
  }

  method InsertIntoLeaf<V>(l: LeafNode<V>, k: Key, v: V, d: nat, replace: bool, beyond: Beyond)
    returns (r: Ptr<V>, found: Option<V>)
    modifies l
    ensures Good(r) && fresh(Repr(r) - {l}) && Shaped(Leaf(l.key, old(l.value)))
    ensures (Tree(r), found) == I.Insert(Leaf(l.key, old(l.value)), k, v, d, replace, beyond)
  {
    InsertAtLeaf(Leaf(l.key, l.value), k, v, d, replace, beyond);
    hide SplitLeaf, I.Insert, NodeSound;
    if l.key == k {
      found := Some(l.value);
      if replace { l.value := v; }
      r := LeafPtr(l);
    } else {
      var n := SplitLeafNode(l, k, v, d, beyond);
      r, found := NodePtr(n), None;
    }
  }

  /** Insertion into one child, which leaves the rest of the node alone. */
  method InsertInKid<V>(n: InnerNode<V>, c: Byte, q: Ptr<V>, k: Key, v: V, d: nat, replace: bool, beyond: Beyond, ghost pre: Key)
    returns (r: Ptr<V>, found: Option<V>)
    requires Good(NodePtr(n)) && Get(n.body, c) == Some(q)
    requires Good(q) && Shaped(Tree(q)) && Inv(Tree(q), pre)
    modifies Repr(q)
    ensures Good(r) && fresh(Repr(r) - old(Repr(q)))
    ensures (Tree(r), found) == I.Insert(old(Tree(q)), k, v, d, replace, beyond)
    ensures unchanged(n) && Clear(n, c, Repr(r))
    decreases Weight(Tree(q)), 2
  {
    hide Inv, Shaped, Weight, NodeSound, Get, I.Insert;
    GoodOthers(n, c);
    r, found := Insert(q, k, v, d, replace, beyond, pre);
    forall d: Byte | d != c && Get(n.body, d).Some? ensures KidOk(n, d) && Repr(Get(n.body, d).value) !! Repr(r) {
      assert old(KidOk(n, d));
    }
    forall d: Byte, e: Byte | d != c && e != c && d != e && Get(n.body, d).Some? && Get(n.body, e).Some? ensures KidsApart(n, d, e) {
      assert old(KidOk(n, d)) && old(KidOk(n, e)) && old(KidsApart(n, d, e));
    }
  }

  /** Insertion below the child of the next byte, or a new leaf there. */
  method InsertBelowNode<V>(n: InnerNode<V>, k: Key, v: V, d: nat, replace: bool, beyond: Beyond, ghost pre: Key)
    returns (r: Ptr<V>, found: Option<V>)
    requires Good(NodePtr(n)) && n.tree.Inner? && Shaped(n.tree) && Inv(n.tree, pre)
    requires n.tree.partialLen > 0 ==> PrefixMismatch(n.tree, k, d, beyond) >= n.tree.partialLen
    modifies n.repr
    ensures Good(r) && fresh(Repr(r) - old(n.repr))
    ensures (Tree(r), found) == I.Insert(old(n.tree), k, v, d, replace, beyond)
    decreases Weight(n.tree), 0
  {
    hide Inv, Shaped, PrefixMismatch, Weight, NodeSound, Path, Get, Wf, InRange, Mirrors, I.Insert, Add, Replace, Others, Clear;
    ghost var t := n.tree;
    HeaderIs(n);
    InvInner(t, pre);
    BodyWf(n);
    var c := KeyByte(k, d + n.partialLen, beyond);
    InsertDescends(t, k, v, d, replace, beyond, c);
    KidMatches(n, c);
    var kid := FindChild(n.body, c);
    StillGood(NodePtr(n));
    if kid.Some? {
      var q := kid.value;
      WeightDrops(t, c);
      var q', f := InsertInKid(n, c, q, k, v, d + n.partialLen + 1, replace, beyond, Path(t, pre) + [c]);
      WriteChild(n, c, q');
      r, found := NodePtr(n), f;
    } else {
      var leaf := new LeafNode(k, v);
      GoodLeaf(leaf);
      StillGood(NodePtr(n));
      var m := AddKid(n, c, LeafPtr(leaf));
      r, found := NodePtr(m), None;
    }
  }

  lemma BodyWf<V>(n: InnerNode<V>)
    requires Good(NodePtr(n)) && Wf(n.tree.body)
    ensures Wf(n.body)
  {
    MirrorsWf(n.body, n.tree.body);
  }

  /** The child at a byte stands for the subtree at that byte. */
  lemma KidMatches<V>(n: InnerNode<V>, c: Byte)
    requires Good(NodePtr(n)) && Wf(n.tree.body)
    ensures Get(n.body, c).Some? <==> Get(n.tree.body, c).Some?
    ensures Get(n.body, c).Some? ==> KidOk(n, c)
  {
    MirrorsGet(n.body, n.tree.body, c);
    if Get(n.body, c).Some? { GoodKid(n, c); }
  }
}
