/** Iteration over the adaptive radix tree on the heap. */
module ArtHeapIter {

  import opened ArtLayout
  import opened ArtMirror
  import opened ArtTree
  import opened ArtInsert
  import opened ArtIter
  import opened ArtPrefix
  import opened ArtHeap
  import HI = ArtHeapInsert

  /** The child at a place of a small layout stands for the subtree at that place. */
  lemma SmallKid<V>(n: InnerNode<V>, i: nat)
    requires Good(NodePtr(n)) && n.tree.Inner? && Shaped(n.tree) && (n.body.Node4? || n.body.Node16?) && i < |n.body.kids|
    ensures n.tree.body.Node4? || n.tree.body.Node16?
    ensures |n.tree.body.kids| == |n.body.kids| == |n.body.keys| == |n.tree.body.keys|
    ensures var q := n.body.kids[i]; Good(q) && Tree(q) == n.tree.body.kids[i] && Shaped(Tree(q)) && Tree(q) < n.tree
  {
    var keys := n.body.keys;
    FindKeyUnique(keys, i);
    assert Get(n.body, keys[i]) == Some(n.body.kids[i]);
    assert Get(n.tree.body, keys[i]) == Some(n.tree.body.kids[i]);
    GoodKid(n, keys[i]);
  }

  lemma ByteKid<V>(n: InnerNode<V>, c: Byte)
    requires Good(NodePtr(n)) && n.tree.Inner? && Shaped(n.tree)
    ensures Get(n.body, c).Some? <==> Get(n.tree.body, c).Some?
    ensures Get(n.body, c).Some? ==> var q := Get(n.body, c).value; Good(q) && Get(n.tree.body, c) == Some(Tree(q)) && Shaped(Tree(q))
  {
    MirrorsGet(n.body, n.tree.body, c);
    if Get(n.body, c).Some? { GoodKid(n, c); }
  }

  /** The recursive walk, with a loop per layout. */
  method Iterate<V>(p: Ptr<V>, cb: seq<(Key, V)> -> int, log: seq<(Key, V)>) returns (log': seq<(Key, V)>, res: int)
    requires Good(p) && Shaped(Tree(p))
    ensures (log', res) == Upto(log, Leaves(Tree(p)), cb) && Walked(log, Leaves(Tree(p)), cb, log', res)
    decreases Weight(Tree(p)), 1
  {
    hide Walked;
    UptoWalks(log, Leaves(Tree(p)), cb);
    match p
    case LeafPtr(l) =>
      log' := log + [(l.key, l.value)];
      res := cb(log');
      assert Leaves(Tree(p)) == [(l.key, l.value)];
    case NodePtr(n) =>
      HI.HeaderIs(n);
      if n.body.Node4? || n.body.Node16? {
        log', res := IterateSmall(n, cb, log);
      } else {
        log', res := IterateBytes(n, cb, log);
      }
  }

  lemma SmallBody<V>(n: InnerNode<V>)
    requires Good(NodePtr(n)) && n.tree.Inner? && Shaped(n.tree) && (n.body.Node4? || n.body.Node16?)
    ensures n.tree.body.Node4? || n.tree.body.Node16?
    ensures |n.tree.body.kids| == |n.body.kids| && Leaves(n.tree) == KidLeaves(n.tree.body.kids, |n.body.kids|)
  {
    SmallIs(n.tree, n.tree.body.keys, n.tree.body.kids);
  }

  method IterateSmall<V>(n: InnerNode<V>, cb: seq<(Key, V)> -> int, log: seq<(Key, V)>)
    returns (log': seq<(Key, V)>, res: int)
    requires Good(NodePtr(n)) && n.tree.Inner? && Shaped(n.tree) && (n.body.Node4? || n.body.Node16?)
    ensures (log', res) == Upto(log, Leaves(n.tree), cb)
    decreases Weight(n.tree), 0
  {
    hide NodeSound, Shaped, Leaves, Upto, Weight, Get;
    SmallBody(n);
    ghost var t := n.tree;
    ghost var kids := t.body.kids;
    log', res := log, 0;
    UptoNone(log, cb);
    var i := 0;
    while i < |n.body.kids|
      invariant i <= |n.body.kids| == |kids| && Good(NodePtr(n))
      invariant Upto(log, KidLeaves(kids, i), cb) == (log', 0)
    {
      SmallKid(n, i);
      KidWeight(t, i);
      log', res := Iterate(n.body.kids[i], cb, log');
      StillGood(NodePtr(n));
      UptoConcat(log, KidLeaves(kids, i), Leaves(kids[i]), cb);
      if res != 0 {
        KidPrefix(kids, i + 1, cb, log);
        return;
      }
      i := i + 1;
    }
    res := 0;
  }

  lemma UptoNone<V>(log: seq<(Key, V)>, cb: seq<(Key, V)> -> int)
    ensures Upto(log, [], cb) == (log, 0)
  {
  }

  lemma KidWeight<V>(t: Node<V>, i: nat)
    requires t.Inner? && Shaped(t) && (t.body.Node4? || t.body.Node16?) && i < |t.body.kids|
    ensures Weight(t.body.kids[i]) < Weight(t)
  {
    var keys := t.body.keys;
    FindKeyUnique(keys, i);
    assert Get(t.body, keys[i]) == Some(t.body.kids[i]);
    WeightDrops(t, keys[i]);
  }

  method IterateBytes<V>(n: InnerNode<V>, cb: seq<(Key, V)> -> int, log: seq<(Key, V)>)
    returns (log': seq<(Key, V)>, res: int)
    requires Good(NodePtr(n)) && n.tree.Inner? && Shaped(n.tree) && (n.body.Node48? || n.body.Node256?)
    ensures (log', res) == Upto(log, Leaves(n.tree), cb)
    decreases Weight(n.tree), 0
  {
    hide NodeSound, Shaped, Leaves, Upto, Weight, Get;
    ghost var t := n.tree;
    LeavesInner(t);
    log', res := log, 0;
    UptoNone(log, cb);
    var c := 0;
    while c < 256
      invariant c <= 256 && Good(NodePtr(n))
      invariant Upto(log, LeavesBelow(t, c), cb) == (log', 0)
    {
      ByteKid(n, c);
      BytePresent(n, c);
      var present := if n.body.Node48? then n.body.index[c] != 0 else n.body.slots[c].Some?;
      if present {
        var q := if n.body.Node48? then n.body.slots[n.body.index[c] - 1].value else n.body.slots[c].value;
        WeightDrops(t, c);
        log', res := Iterate(q, cb, log');
        StillGood(NodePtr(n));
        UptoConcat(log, LeavesBelow(t, c), Leaves(Get(t.body, c).value), cb);
        if res != 0 {
          BelowPrefix(t, c + 1, cb, log);
          return;
        }
      } else {
        assert LeavesBelow(t, c + 1) == LeavesBelow(t, c);
      }
      c := c + 1;
    }
    res := 0;
  }

  /** How the larger layouts say that a byte has a child. */
  lemma BytePresent<V>(n: InnerNode<V>, c: Byte)
    requires Good(NodePtr(n)) && n.tree.Inner? && Shaped(n.tree) && (n.body.Node48? || n.body.Node256?)
    ensures n.body.Node48? ==>
              && |n.body.index| == 256 && |n.body.slots| == 48 && (n.body.index[c] != 0 <==> Get(n.body, c).Some?)
              && (n.body.index[c] != 0 ==> n.body.index[c] <= 48 && Get(n.body, c) == n.body.slots[n.body.index[c] - 1])
    ensures n.body.Node256? ==> |n.body.slots| == 256 && Get(n.body, c) == n.body.slots[c]
  {
    MirrorsWf(n.body, n.tree.body);
  }

  /** What the walk still has to find. */
  ghost function ToFind<V>(next: Option<Ptr<V>>, k: Key, d: nat, beyond: Beyond): seq<(Key, V)>
    reads if next.Some? then {Obj(next.value)} else {}
  {
    if next.Some? then Found(Tree(next.value), k, d, beyond) else []
  }

  /** The walk for a prefix, and the iteration where it ends. */
  method IteratePrefix<V(!new)>(root: Option<Ptr<V>>, k: Key, beyond: Beyond, cb: seq<(Key, V)> -> int)
    returns (log: seq<(Key, V)>, res: int)
    requires root.Some? ==> Good(root.value) && Inv(Tree(root.value), [])
    ensures (log, res) == Upto([], old(ToFind(root, k, 0, beyond)), cb)
    ensures Walked([], old(ToFind(root, k, 0, beyond)), cb, log, res)
  {
    hide NodeSound, Found, Weight, Inv, Upto, Walked;
    ghost var goal := ToFind(root, k, 0, beyond);
    UptoWalks([], goal, cb);
    UptoNone<V>([], cb);
    var next, depth: nat := root, 0;
    ghost var pre: Key := [];
    while next.Some?
      invariant next.Some? ==> Good(next.value) && Inv(Tree(next.value), pre)
      invariant goal == ToFind(next, k, depth, beyond)
      decreases if next.Some? then Weight(Tree(next.value)) + 1 else 0
    {
      var done;
      done, log, res, next, depth, pre := WalkNode(next.value, k, depth, beyond, cb, pre);
      if done { return; }
    }
    log, res := [], 0;
  }

  /** One turn of the walk: it ends at this node, or goes on at a child or nowhere. */
  method WalkNode<V(!new)>(p: Ptr<V>, k: Key, d: nat, beyond: Beyond, cb: seq<(Key, V)> -> int, ghost pre: Key)
    returns (done: bool, log: seq<(Key, V)>, res: int, next: Option<Ptr<V>>, d': nat, ghost pre': Key)
    requires Good(p) && Inv(Tree(p), pre)
    ensures done ==> (log, res) == Upto([], Found(Tree(p), k, d, beyond), cb)
    ensures !done ==> Found(Tree(p), k, d, beyond) == ToFind(next, k, d', beyond)
    ensures !done && next.Some? ==>
              Good(next.value) && Inv(Tree(next.value), pre') && Weight(Tree(next.value)) < Weight(Tree(p))
  {
    hide NodeSound, Found, Get, Weight, Inv, Shaped, Stops, Upto, Path, KeyByte;
    done, log, res, next, d', pre' := true, [], 0, None, 0, [];
    UptoNone<V>([], cb);
    InvShaped(Tree(p), pre);
    match p
    case LeafPtr(l) =>
      LeafWalk(Tree(p), k, d, beyond);
      if k <= l.key {
        log := [(l.key, l.value)];
        UptoOne(l.key, l.value, cb);
        res := cb(log);
      }
    case NodePtr(n) =>
      HI.HeaderIs(n);
      done, log, res := TryHere(n, k, d, beyond, cb, pre);
      if !done {
        var c := KeyByte(k, d + n.partialLen, beyond);
        WalkOn(n, pre, k, d, beyond, c);
        next, d', pre' := Get(n.body, c), d + n.partialLen + 1, Path(n.tree, pre) + [c];
      }
  }

  /** The walk goes on at the child of the next byte. */
  lemma WalkOn<V>(n: InnerNode<V>, pre: Key, k: Key, d: nat, beyond: Beyond, c: Byte)
    requires Good(NodePtr(n)) && n.tree.Inner? && Inv(n.tree, pre) && Shaped(n.tree)
    requires !Stops(n.tree, k, d, beyond) && c == KeyByte(k, d + n.tree.partialLen, beyond)
    ensures Get(n.body, c).None? ==> Found(n.tree, k, d, beyond) == []
    ensures Get(n.body, c).Some? ==>
              var q := Get(n.body, c).value;
              && Good(q) && Inv(Tree(q), Path(n.tree, pre) + [c]) && Weight(Tree(q)) < Weight(n.tree)
              && Found(n.tree, k, d, beyond) == Found(Tree(q), k, d + n.tree.partialLen + 1, beyond)
  {
    hide NodeSound, Found, Get, Weight, Inv, Shaped, Stops, Path;
    WalkStep(n.tree, k, d, beyond, true, c);
    InvInner(n.tree, pre);
    ByteKid(n, c);
    if Get(n.body, c).Some? { WeightDrops(n.tree, c); }
  }

  lemma UptoOne<V>(k: Key, v: V, cb: seq<(Key, V)> -> int)
    ensures Upto([], [(k, v)], cb) == ([(k, v)], cb([(k, v)]))
  {
    assert [] + [(k, v)] == [(k, v)];
  }

  lemma LeafWalk<V>(n: Node<V>, k: Key, d: nat, beyond: Beyond)
    requires n.Leaf?
    ensures Found(n, k, d, beyond) == if k <= n.key then [(n.key, n.value)] else []
  {
  }

  /** The tests that end the walk at a node. */
  method TryHere<V>(n: InnerNode<V>, k: Key, d: nat, beyond: Beyond, cb: seq<(Key, V)> -> int, ghost pre: Key)
    returns (done: bool, log: seq<(Key, V)>, res: int)
    requires Good(NodePtr(n)) && n.tree.Inner? && Inv(n.tree, pre) && Shaped(n.tree)
    ensures done <==> Stops(n.tree, k, d, beyond)
    ensures done ==> (log, res) == Upto([], Found(n.tree, k, d, beyond), cb)
    ensures Good(NodePtr(n))
  {
    hide NodeSound, Found, Leaves, MinKey, PrefixMismatch, Inv, Shaped, Upto;
    HI.HeaderIs(n);
    UptoNone<V>([], cb);
    if Stops(n.tree, k, d, beyond) { StopStep(n.tree, k, d, beyond, true); }
    done, log, res := false, [], 0;
    if d == |k| {
      done := true;
      var l := FindMinimum(NodePtr(n), pre);
      StillGood(NodePtr(n));
      if k <= l.key { log, res := Iterate(NodePtr(n), cb, []); }
    } else if n.partialLen > 0 {
      var followed := HI.FindMismatch(n, k, d, beyond, pre);
      StillGood(NodePtr(n));
      if followed > n.partialLen { followed := n.partialLen; }
      if followed == 0 {
        done := true;
      } else if d + followed == |k| {
        done := true;
        log, res := Iterate(NodePtr(n), cb, []);
      }
    }
    StillGood(NodePtr(n));
  }
}
