/**
 The nodes of the adaptive radix tree on the heap: leaves and inner nodes that are changed in
 place, and tagged pointers to them.  A pointer stands for a tree; writes through it stay inside
 the nodes of that tree.
 */
module ArtHeap {

  import opened ArtLayout
  import opened ArtLayoutLoops
  import opened ArtMirror
  import opened ArtTree

  class LeafNode<V> {
    const key: Key
    var value: V

    constructor (key: Key, value: V)
      ensures this.key == key && this.value == value
    {
      this.key, this.value := key, value;
    }
  }

  datatype Ptr<V> = LeafPtr(leaf: LeafNode<V>) | NodePtr(node: InnerNode<V>)

  /** `tree` is what the node stands for, and `repr` the objects it is made of. */
  class InnerNode<V> {
    var partialLen: nat
    var partial: seq<Byte>
    var body: Layout<Ptr<V>>
    ghost var tree: Node<V>
    ghost var repr: set<object>

    constructor (partialLen: nat, partial: seq<Byte>, body: Layout<Ptr<V>>, ghost tree: Node<V>, ghost below: set<object>)
      ensures this.partialLen == partialLen && this.partial == partial && this.body == body
      ensures this.tree == tree && repr == below + {this}
    {
      this.partialLen, this.partial, this.body := partialLen, partial, body;
      this.tree := tree;
      repr := below + {this};
    }
  }

  function Obj<V>(p: Ptr<V>): object { if p.LeafPtr? then p.leaf else p.node }

  ghost function Tree<V>(p: Ptr<V>): Node<V>
    reads Obj(p)
  {
    match p
    case LeafPtr(l) => Leaf(l.key, l.value)
    case NodePtr(n) => n.tree
  }

  ghost function Repr<V>(p: Ptr<V>): set<object>
    reads Obj(p)
  {
    match p
    case LeafPtr(l) => {l}
    case NodePtr(n) => n.repr
  }

  /** The header and the shape of a node are those of its tree. */
  ghost predicate HeaderOk<V>(n: InnerNode<V>)
    reads n
  {
    && n in n.repr
    && n.tree.Inner? && n.tree.partialLen == n.partialLen && n.tree.partial == n.partial
    && Mirrors(n.body, n.tree.body)
  }

  /** The objects of a child are among those of the node, and the node is not one of them. */
  ghost predicate KidInside<V>(n: InnerNode<V>, q: Ptr<V>)
    reads n, Obj(q)
  {
    Obj(q) in Repr(q) && Repr(q) <= n.repr && n !in Repr(q)
  }

  /** A node and the nodes below it stand for its tree, without sharing. */
  ghost predicate NodeSound<V>(n: InnerNode<V>)
    reads n, n.repr
    decreases n.tree
  {
    && HeaderOk(n)
    && (forall c: Byte :: Get(n.body, c).Some? ==> Obj(Get(n.body, c).value) in n.repr)
    && (forall c: Byte :: Get(n.body, c).Some? ==>
          var q := Get(n.body, c).value;
          KidInside(n, q) && Get(n.tree.body, c) == Some(Tree(q)) && (q.NodePtr? ==> NodeSound(q.node)))
    && (forall c: Byte, d: Byte :: c != d && Get(n.body, c).Some? && Get(n.body, d).Some? ==>
          Repr(Get(n.body, c).value) !! Repr(Get(n.body, d).value))
  }

  /** A pointer leads to nodes that stand for its tree, without sharing; a leaf always does. */
  ghost predicate Good<V>(p: Ptr<V>)
    reads Obj(p), Repr(p)
  {
    p.NodePtr? ==> NodeSound(p.node)
  }

  /** What a child of a node must be. */
  ghost predicate KidOk<V>(n: InnerNode<V>, c: Byte)
    requires Get(n.body, c).Some?
    reads n, Obj(Get(n.body, c).value), Repr(Get(n.body, c).value)
  {
    var q := Get(n.body, c).value;
    n.tree.Inner? && KidInside(n, q) && Get(n.tree.body, c) == Some(Tree(q)) && Good(q)
  }

  ghost predicate KidsApart<V>(n: InnerNode<V>, c: Byte, d: Byte)
    requires Get(n.body, c).Some? && Get(n.body, d).Some?
    reads n, Obj(Get(n.body, c).value), Obj(Get(n.body, d).value)
  {
    Repr(Get(n.body, c).value) !! Repr(Get(n.body, d).value)
  }

  lemma GoodIs<V>(n: InnerNode<V>)
    requires HeaderOk(n)
    requires forall c: Byte :: Get(n.body, c).Some? ==> KidOk(n, c)
    requires forall c: Byte, d: Byte :: c != d && Get(n.body, c).Some? && Get(n.body, d).Some? ==> KidsApart(n, c, d)
    ensures Good(NodePtr(n))
  {
    hide Get;
    forall c: Byte | Get(n.body, c).Some? ensures Obj(Get(n.body, c).value) in n.repr { assert KidOk(n, c); }
    forall c: Byte | Get(n.body, c).Some?
      ensures var q := Get(n.body, c).value; KidInside(n, q) && Get(n.tree.body, c) == Some(Tree(q)) && Good(q)
    {
      assert KidOk(n, c);
    }
    forall c: Byte, d: Byte | c != d && Get(n.body, c).Some? && Get(n.body, d).Some?
      ensures Repr(Get(n.body, c).value) !! Repr(Get(n.body, d).value)
    {
      assert KidsApart(n, c, d);
    }
  }

  /** A pointer whose objects have not changed stands for the same tree. */
  twostate lemma StillGood<V>(p: Ptr<V>)
    requires old(Good(p)) && unchanged(Obj(p)) && unchanged(Repr(p))
    ensures Good(p) && Tree(p) == old(Tree(p)) && Repr(p) == old(Repr(p))
  {
    hide NodeSound;
  }

  lemma ObjInRepr<V>(p: Ptr<V>)
    requires Good(p)
    ensures Obj(p) in Repr(p)
  {
  }

  lemma GoodKid<V>(n: InnerNode<V>, c: Byte)
    requires Good(NodePtr(n)) && Get(n.body, c).Some?
    ensures HeaderOk(n) && KidOk(n, c)
    ensures forall d: Byte :: d != c && Get(n.body, d).Some? ==> KidsApart(n, c, d)
  {
    hide Get;
  }

  // ----- Reading -----

  /** The lowest child stands for the lowest subtree. */
  lemma FirstMatches<V>(n: InnerNode<V>, q: Ptr<V>)
    requires Good(NodePtr(n)) && Wf(n.tree.body) && Wf(n.body) && Size(n.tree.body) > 0 && Size(n.body) > 0
    requires First(n.body) == Some(q)
    ensures First(n.tree.body) == Some(Tree(q)) && Good(q)
    ensures exists c: Byte :: Get(n.body, c) == Some(q) && Get(n.tree.body, c) == Some(Tree(q))
  {
    var c := FirstIs(n.body);
    var d := FirstIs(n.tree.body);
    MirrorsGet(n.body, n.tree.body, c);
    MirrorsGet(n.body, n.tree.body, d);
    hide Get, Wf, Size, First, Mirrors;
    assert c == d;
    GoodKid(n, c);
  }

  method FindMinimum<V>(p: Ptr<V>, ghost pre: Key) returns (l: LeafNode<V>)
    requires Good(p) && Inv(Tree(p), pre)
    ensures l in Repr(p) && l.key == MinKey(Tree(p)) && HasLeaf(Tree(p), l.key, l.value)
    decreases Weight(Tree(p))
  {
    match p
    case LeafPtr(leaf) => l := leaf;
    case NodePtr(n) =>
      InvInner(n.tree, pre);
      MirrorsWf(n.body, n.tree.body);
      SomeChild(n.tree.body);
      hide Get, Wf, Size, First, Mirrors, Inv, InRange, Weight, Path;
      var q := FirstChild(n.body);
      FirstMatches(n, q);
      ghost var c: Byte :| Get(n.body, c) == Some(q) && Get(n.tree.body, c) == Some(Tree(q));
      WeightDrops(n.tree, c);
      l := FindMinimum(q, Path(n.tree, pre) + [c]);
  }

  lemma SomeChild<T>(l: Layout<T>)
    requires InRange(l)
    ensures Size(l) > 0
  {
  }
}
