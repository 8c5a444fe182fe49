/** Writing child pointers of a node on the heap: replacing, adding and removing a child. */
module ArtHeapOps {

  import opened ArtLayout
  import opened ArtLayoutLoops
  import opened ArtMirror
  import opened ArtTree
  import opened ArtHeap

  /** A node that is in order except for the child at `c`. */
  ghost predicate Others<V>(n: InnerNode<V>, c: Byte)
    reads n, n.repr
  {
    && HeaderOk(n)
    && (forall d: Byte :: d != c && Get(n.body, d).Some? ==>
          Obj(Get(n.body, d).value) in n.repr && Repr(Get(n.body, d).value) <= n.repr)
    && (forall d: Byte :: d != c && Get(n.body, d).Some? ==> KidOk(n, d))
    && (forall d: Byte, e: Byte :: d != c && e != c && d != e && Get(n.body, d).Some? && Get(n.body, e).Some? ==> KidsApart(n, d, e))
  }

  /** Besides, neither the node nor another child shares an object with `s`. */
  ghost predicate Clear<V>(n: InnerNode<V>, c: Byte, s: set<object>)
    reads n, n.repr
  {
    Others(n, c) && n !in s && forall d: Byte :: d != c && Get(n.body, d).Some? ==> Repr(Get(n.body, d).value) !! s
  }

  lemma GoodOthers<V>(n: InnerNode<V>, c: Byte)
    requires Good(NodePtr(n))
    ensures Others(n, c)
    ensures Get(n.body, c).Some? ==> Clear(n, c, Repr(Get(n.body, c).value))
  {
    hide Get;
    forall d: Byte | Get(n.body, d).Some?
      ensures KidOk(n, d) && Obj(Get(n.body, d).value) in n.repr && Repr(Get(n.body, d).value) <= n.repr
    {
      GoodKid(n, d);
    }
    forall d: Byte, e: Byte | d != e && Get(n.body, d).Some? && Get(n.body, e).Some? ensures KidsApart(n, d, e) {
      GoodKid(n, d);
    }
    if Get(n.body, c).Some? {
      GoodKid(n, c);
      forall d: Byte | d != c && Get(n.body, d).Some? ensures Repr(Get(n.body, d).value) !! Repr(Get(n.body, c).value) {
        assert KidsApart(n, c, d);
      }
    }
  }

  lemma ReplaceBoth<A, B>(l: Layout<A>, t: Layout<B>, c: Byte, x: A, y: B)
    requires Mirrors(l, t) && Wf(t) && Get(l, c).Some?
    ensures Wf(l) && Get(t, c).Some?
    ensures Mirrors(Replace(l, c, x), Replace(t, c, y))
    ensures IsUpdate(l, Replace(l, c, x), c, Some(x)) && IsUpdate(t, Replace(t, c, y), c, Some(y))
  {
    hide Wf, Mirrors, Replace, Get, IsUpdate;
    MirrorsWf(l, t);
    MirrorsGet(l, t, c);
    MirrorsReplace(l, t, c, x, y);
    ReplaceKeeps(l, c, x);
    ReplaceKeeps(t, c, y);
  }

  /** The write through `ref` that replaces a child. */
  method WriteChild<V>(n: InnerNode<V>, c: Byte, q: Ptr<V>)
    requires Clear(n, c, Repr(q)) && Wf(n.tree.body) && Get(n.body, c).Some? && Good(q)
    modifies n
    ensures Get(old(n.tree.body), c).Some?
    ensures Good(NodePtr(n)) && n.repr == old(n.repr) + Repr(q)
    ensures n.tree == Inner(old(n.partialLen), old(n.partial), Replace(old(n.tree.body), c, old(Tree(q))))
  {
    hide Get, Wf, Mirrors, Replace, NodeSound;
    ghost var tree, t := n.tree.body, Tree(q);
    ObjInRepr(q);
    ReplaceBoth(n.body, tree, c, q, t);
    n.body := Replace(n.body, c, q);
    n.tree := Inner(n.partialLen, n.partial, Replace(tree, c, t));
    n.repr := n.repr + Repr(q);
    forall d: Byte | Get(n.body, d).Some? ensures KidOk(n, d) {
      if d != c { assert old(KidOk(n, d)); }
    }
    forall d: Byte, e: Byte | d != e && Get(n.body, d).Some? && Get(n.body, e).Some? ensures KidsApart(n, d, e) {
      if d != c && e != c { assert old(KidsApart(n, d, e)); }
    }
    GoodIs(n);
  }

  // ----- Adding and removing -----

  predicate SameKind<A, B>(l: Layout<A>, m: Layout<B>) {
    && (l.Node4? <==> m.Node4?) && (l.Node16? <==> m.Node16?) && (l.Node48? <==> m.Node48?)
  }

  lemma AddBoth<A, B>(l: Layout<A>, t: Layout<B>, c: Byte, x: A, y: B)
    requires Mirrors(l, t) && Wf(t) && Get(l, c).None?
    ensures Wf(l) && Get(t, c).None?
    ensures Mirrors(Add(l, c, x), Add(t, c, y))
    ensures IsUpdate(l, Add(l, c, x), c, Some(x)) && IsUpdate(t, Add(t, c, y), c, Some(y)) && Wf(Add(t, c, y))
  {
    hide Wf, Mirrors, Add, Get, IsUpdate;
    MirrorsWf(l, t);
    MirrorsGet(l, t, c);
    MirrorsAdd(l, t, c, x, y);
    AddKeeps(l, c, x);
    AddKeeps(t, c, y);
  }

  lemma RemoveBoth<A, B>(l: Layout<A>, t: Layout<B>, c: Byte)
    requires Mirrors(l, t) && Wf(t) && Get(l, c).Some?
    ensures Wf(l) && Get(t, c).Some?
    ensures Mirrors(Remove(l, c), Remove(t, c))
    ensures IsUpdate(l, Remove(l, c), c, None) && IsUpdate(t, Remove(t, c), c, None)
  {
    hide Wf, Mirrors, Remove, Get, IsUpdate;
    MirrorsWf(l, t);
    MirrorsGet(l, t, c);
    MirrorsRemove(l, t, c);
    RemoveKeeps(l, c);
    RemoveKeeps(t, c);
  }

  /** The new children are `q` at `c`, if there is one, and the children of `n` at the other bytes. */
  ghost predicate IsNewBody<V>(n: InnerNode<V>, c: Byte, q: Option<Ptr<V>>, body: Layout<Ptr<V>>, t: Layout<Node<V>>)
    requires n.tree.Inner? && (q.Some? ==> Good(q.value))
    reads n, if q.Some? then {Obj(q.value)} + Repr(q.value) else {}
  {
    && Mirrors(body, t)
    && IsUpdate(n.body, body, c, q)
    && IsUpdate(n.tree.body, t, c, if q.Some? then Some(Tree(q.value)) else None)
  }

  /** Gives the node a new set of children. */
  method Rewrite<V>(n: InnerNode<V>, c: Byte, q: Option<Ptr<V>>, body: Layout<Ptr<V>>, ghost t: Layout<Node<V>>)
    requires Good(NodePtr(n)) && (q.Some? ==> Good(q.value) && Repr(q.value) !! n.repr)
    requires IsNewBody(n, c, q, body, t)
    modifies n
    ensures Good(NodePtr(n)) && n.repr == old(n.repr) + (if q.Some? then Repr(q.value) else {})
    ensures n.tree == Inner(old(n.partialLen), old(n.partial), t)
  {
    hide Get, Mirrors, NodeSound;
    GoodOthers(n, c);
    if q.Some? { ObjInRepr(q.value); }
    ghost var more := if q.Some? then Repr(q.value) else {};
    n.body, n.tree := body, Inner(n.partialLen, n.partial, t);
    n.repr := n.repr + more;
    if q.Some? { StillGood(q.value); }
    forall d: Byte | Get(n.body, d).Some? ensures KidOk(n, d) {
      if d != c { assert old(KidOk(n, d)); }
    }
    forall d: Byte, e: Byte | d != e && Get(n.body, d).Some? && Get(n.body, e).Some? ensures KidsApart(n, d, e) {
      if d != c { assert old(KidOk(n, d)); }
      if e != c { assert old(KidOk(n, e)); }
      if d != c && e != c { assert old(KidsApart(n, d, e)); }
    }
    GoodIs(n);
  }

  /** Makes another node with a new set of children; the old node is given up. */
  method Renew<V>(n: InnerNode<V>, c: Byte, q: Option<Ptr<V>>, body: Layout<Ptr<V>>, ghost t: Layout<Node<V>>)
    returns (m: InnerNode<V>)
    requires Good(NodePtr(n)) && (q.Some? ==> Good(q.value) && Repr(q.value) !! n.repr)
    requires IsNewBody(n, c, q, body, t)
    ensures Good(NodePtr(m)) && fresh(m) && m.repr == n.repr - {n} + (if q.Some? then Repr(q.value) else {}) + {m}
    ensures m.tree == Inner(n.partialLen, n.partial, t)
  {
    hide Get, Mirrors, NodeSound;
    GoodOthers(n, c);
    if q.Some? { ObjInRepr(q.value); }
    ghost var more := if q.Some? then Repr(q.value) else {};
    m := new InnerNode(n.partialLen, n.partial, body, Inner(n.partialLen, n.partial, t), n.repr - {n} + more);
    if q.Some? { StillGood(q.value); }
    forall d: Byte | Get(m.body, d).Some? ensures KidOk(m, d) {
      if d != c { assert KidOk(n, d); }
    }
    forall d: Byte, e: Byte | d != e && Get(m.body, d).Some? && Get(m.body, e).Some? ensures KidsApart(m, d, e) {
      if d != c { assert KidOk(n, d); }
      if e != c { assert KidOk(n, e); }
      if d != c && e != c { assert KidsApart(n, d, e); }
    }
    GoodIs(m);
  }

  /** Adds a child; a full node is replaced by a larger one, and the pointer to use is returned. */
  method AddKid<V>(n: InnerNode<V>, c: Byte, q: Ptr<V>) returns (m: InnerNode<V>)
    requires Good(NodePtr(n)) && Wf(n.tree.body) && Get(n.body, c).None? && Good(q) && Repr(q) !! n.repr
    modifies n
    ensures Good(NodePtr(m)) && (m == n || fresh(m)) && m.repr <= old(n.repr) + Repr(q) + {m}
    ensures m.tree == Inner(old(n.partialLen), old(n.partial), Add(old(n.tree.body), c, old(Tree(q))))
    ensures Wf(m.tree.body)
  {
    hide Get, Wf, Mirrors, Add;
    ghost var t := Add(n.tree.body, c, Tree(q));
    AddBoth(n.body, n.tree.body, c, q, Tree(q));
    var body := AddChild(n.body, c, q);
    ObjInRepr(q);
    hide NodeSound;
    if SameKind(body, n.body) {
      Rewrite(n, c, Some(q), body, t);
      m := n;
    } else {
      m := Renew(n, c, Some(q), body, t);
    }
  }

  /** Removes a child; a node with few children is replaced by a smaller one. */
  method DropKid<V>(n: InnerNode<V>, c: Byte) returns (m: InnerNode<V>)
    requires Good(NodePtr(n)) && Wf(n.tree.body) && Get(n.body, c).Some?
    modifies n
    ensures Get(old(n.tree.body), c).Some?
    ensures Good(NodePtr(m)) && (m == n || fresh(m)) && m.repr <= old(n.repr) + {m}
    ensures m.tree == Inner(old(n.partialLen), old(n.partial), Remove(old(n.tree.body), c))
  {
    hide Get, Wf, Mirrors, Remove;
    RemoveBoth(n.body, n.tree.body, c);
    ghost var t := Remove(n.tree.body, c);
    var body := RemoveChild(n.body, c);
    hide NodeSound;
    if SameKind(body, n.body) {
      Rewrite(n, c, None, body, t);
      m := n;
    } else {
      m := Renew(n, c, None, body, t);
    }
  }

  /** Rewrites the compressed prefix of a node in place. */
  method SetPrefix<V>(n: InnerNode<V>, partialLen: nat, partial: seq<Byte>)
    requires Good(NodePtr(n))
    modifies n
    ensures Good(NodePtr(n)) && n.repr == old(n.repr)
    ensures old(n.tree).Inner? && n.tree == Inner(partialLen, partial, old(n.tree.body))
  {
    forall d: Byte | Get(n.body, d).Some? ensures KidOk(n, d) { GoodKid(n, d); }
    forall d: Byte, e: Byte | d != e && Get(n.body, d).Some? && Get(n.body, e).Some? ensures KidsApart(n, d, e) {
      GoodKid(n, d);
    }
    hide Get, Mirrors, NodeSound;
    n.partialLen, n.partial := partialLen, partial;
    n.tree := Inner(partialLen, partial, n.tree.body);
    forall d: Byte | Get(n.body, d).Some? ensures KidOk(n, d) { assert old(KidOk(n, d)); }
    forall d: Byte, e: Byte | d != e && Get(n.body, d).Some? && Get(n.body, e).Some? ensures KidsApart(n, d, e) {
      assert old(KidOk(n, d)) && old(KidOk(n, e)) && old(KidsApart(n, d, e));
    }
    GoodIs(n);
  }

  function Empty<T>(): Layout<T> { Node4([], []) }

  /** A new node without children. */
  method NewNode<V>(partialLen: nat, partial: seq<Byte>) returns (n: InnerNode<V>)
    ensures fresh(n) && Good(NodePtr(n)) && n.repr == {n} && n.body == Empty()
    ensures n.tree == Inner(partialLen, partial, Empty()) && n.partialLen == partialLen && n.partial == partial
  {
    n := new InnerNode(partialLen, partial, Node4([], []), Inner(partialLen, partial, Node4([], [])), {});
  }
}
