/** Deletion from the adaptive radix tree on the heap, in place. */
module ArtHeapDelete {

  import opened ArtLayout
  import opened ArtLayoutLoops
  import opened ArtMirror
  import opened ArtTree
  import opened ArtInsert
  import D = ArtDelete
  import opened ArtHeap
  import opened ArtHeapOps
  import opened ArtHeapInsert

  /** A node with one child: the child stands for the only subtree. */
  lemma OnlyKid<V>(m: InnerNode<V>)
    requires Good(NodePtr(m)) && m.body.Node4? && |m.body.keys| == |m.body.kids| == 1
    ensures m.tree.Inner? && m.tree.body.Node4? && m.tree.body.keys == m.body.keys && |m.tree.body.kids| == 1
    ensures var q := m.body.kids[0]; Good(q) && Repr(q) <= m.repr && Tree(q) == m.tree.body.kids[0]
  {
    var key := m.body.keys[0];
    assert FindKey(m.body.keys, key) == 0;
    assert Get(m.body, key) == Some(m.body.kids[0]);
    GoodKid(m, key);
    assert Get(m.tree.body, key) == Some(m.tree.body.kids[0]);
  }

  /** Whether a node has a single child left. */
  predicate Single<T>(l: Layout<T>) { l.Node4? && |l.keys| == 1 && |l.kids| == 1 }

  lemma SingleBoth<V>(m: InnerNode<V>)
    requires Good(NodePtr(m))
    ensures m.tree.Inner? && (Single(m.body) <==> Single(m.tree.body))
  {
  }

  /** Removes a child; a node left with one child is replaced by that child, which takes over its prefix. */
  method RemoveKid<V>(n: InnerNode<V>, c: Byte) returns (r: Ptr<V>)
    requires Good(NodePtr(n)) && n.tree.Inner? && Wf(n.tree.body) && Get(n.body, c).Some?
    modifies n.repr
    ensures Get(old(n.tree.body), c).Some?
    ensures Good(r) && fresh(Repr(r) - old(n.repr)) && Tree(r) == D.RemoveChild(old(n.tree), c)
  {
    hide Get, Wf, Mirrors, Remove, NodeSound, D.JoinPrefix;
    HeaderIs(n);
    var partialLen, partial := n.partialLen, n.partial;
    var m := DropKid(n, c);
    SingleBoth(m);
    if Single(m.body) {
      OnlyKid(m);
      r := AbsorbPrefix(m.body.kids[0], partialLen, partial, m.body.keys[0], m.repr);
    } else {
      r := NodePtr(m);
    }
  }

  /** The only child takes over the prefix and the branch byte of its parent. */
  method AbsorbPrefix<V>(q: Ptr<V>, partialLen: nat, partial: seq<Byte>, key: Byte, ghost all: set<object>) returns (r: Ptr<V>)
    requires Good(q) && Repr(q) <= all
    modifies all
    ensures Good(r) && Repr(r) == old(Repr(q)) && Tree(r) == D.Collapse(partialLen, partial, key, old(Tree(q)))
  {
    hide NodeSound, D.JoinPrefix;
    ObjInRepr(q);
    if q.NodePtr? {
      var child := q.node;
      HeaderIs(child);
      SetPrefix(child, child.partialLen + partialLen + 1,
                D.JoinPrefix(partialLen, partial, key, child.partialLen, child.partial));
    }
    r := q;
  }

  /** Deletion below an inner node; the result is the pointer that the caller stores in its place. */
  method Delete<V(!new)>(n: InnerNode<V>, k: Key, d: nat, beyond: Beyond) returns (r: Ptr<V>, found: Option<V>)
    requires Good(NodePtr(n)) && n.tree.Inner? && Shaped(n.tree)
    modifies n.repr
    ensures Good(r) && fresh(Repr(r) - old(n.repr))
    ensures (Tree(r), found) == D.Delete(old(n.tree), k, d, beyond)
    decreases Weight(n.tree), 1
  {
    hide Shaped, Weight, NodeSound, Get, Wf, Mirrors, D.Delete, D.RemoveChild, Replace, CheckPrefix;
    ghost var t := n.tree;
    HeaderIs(n);
    var c := KeyByte(k, d + n.partialLen, beyond);
    D.DeleteStep(t, k, d, beyond, c);
    r, found := NodePtr(n), None;
    if n.partialLen > 0 {
      var prefix := CheckPrefixLoop(n.partial, k, d, beyond);
      StillGood(NodePtr(n));
      if prefix != Min(MAX_PREFIX, n.partialLen) { return; }
    }
    BodyWf(n);
    KidMatches(n, c);
    var kid := FindChild(n.body, c);
    StillGood(NodePtr(n));
    if kid.None? { return; }
    match kid.value
    case LeafPtr(l) =>
      if l.key == k {
        found := Some(l.value);
        r := RemoveKid(n, c);
      }
    case NodePtr(q) =>
      WeightDrops(t, c);
      HeaderIs(q);
      var q', f := DeleteInKid(n, c, q, k, d + n.partialLen + 1, beyond);
      WriteChild(n, c, q');
      found := f;
  }

  /** Deletion inside one child, which leaves the rest of the node alone. */
  method DeleteInKid<V(!new)>(n: InnerNode<V>, c: Byte, q: InnerNode<V>, k: Key, d: nat, beyond: Beyond)
    returns (r: Ptr<V>, found: Option<V>)
    requires Good(NodePtr(n)) && Get(n.body, c) == Some(NodePtr(q))
    requires Good(NodePtr(q)) && q.tree.Inner? && Shaped(q.tree)
    modifies q.repr
    ensures Good(r) && fresh(Repr(r) - old(q.repr))
    ensures (Tree(r), found) == D.Delete(old(q.tree), k, d, beyond)
    ensures unchanged(n) && Clear(n, c, Repr(r))
    decreases Weight(q.tree), 2
  {
    hide Shaped, Weight, NodeSound, Get, D.Delete;
    GoodOthers(n, c);
    r, found := Delete(q, k, d, beyond);
    forall d: Byte | d != c && Get(n.body, d).Some? ensures KidOk(n, d) && Repr(Get(n.body, d).value) !! Repr(r) {
      assert old(KidOk(n, d));
    }
    forall d: Byte, e: Byte | d != c && e != c && d != e && Get(n.body, d).Some? && Get(n.body, e).Some? ensures KidsApart(n, d, e) {
      assert old(KidOk(n, d)) && old(KidOk(n, e)) && old(KidsApart(n, d, e));
    }
  }
}
