/** The tree object: a root pointer and a size, refining a map from keys to values. */
module ArtHeapTree {

  import opened ArtLayout
  import opened ArtLayoutLoops
  import opened ArtTree
  import opened ArtInsert
  import opened ArtDelete
  import opened ArtMap
  import opened ArtHeap
  import HI = ArtHeapInsert
  import HD = ArtHeapDelete
  import opened ArtIter
  import opened ArtPrefix
  import IT = ArtHeapIter

  /** The tree that an optional pointer stands for. */
  ghost function TreeOf<V>(root: Option<Ptr<V>>): Option<Node<V>>
    reads if root.Some? then {Obj(root.value)} else {}
  {
    if root.None? then None else Some(Tree(root.value))
  }

  ghost function Objects<V>(root: Option<Ptr<V>>): set<object>
    reads if root.Some? then {Obj(root.value)} else {}
  {
    if root.None? then {} else Repr(root.value)
  }

  lemma NothingFrom<V>(k: Key, d: nat, beyond: Beyond)
    ensures SearchFrom<V>(None, k, d, beyond) == None
  {
  }

  lemma ShapedKid<V>(n: Node<V>, c: Byte)
    requires Shaped(n) && n.Inner?
    ensures Wf(n.body) && (Get(n.body, c).Some? ==> Shaped(Get(n.body, c).value))
  {
  }

  /** One turn of the search at an inner node: the next pointer, or none if the prefix or the branch byte fails. */
  method SearchNode<V>(n: InnerNode<V>, k: Key, d: nat, beyond: Beyond) returns (next: Option<Ptr<V>>, d': nat)
    requires Good(NodePtr(n)) && Shaped(n.tree)
    ensures SearchFrom(Some(n.tree), k, d, beyond) == SearchFrom(TreeOf(next), k, d', beyond)
    ensures next.Some? ==> Good(next.value) && Shaped(Tree(next.value)) && Weight(Tree(next.value)) < Weight(n.tree)
  {
    hide NodeSound, Shaped, SearchFrom, Get, Weight, CheckPrefix;
    SearchUnfold(n.tree, k, d, beyond);
    HI.HeaderIs(n);
    next, d' := None, d;
    NothingFrom<V>(k, d, beyond);
    if n.partialLen > 0 {
      var prefix := HI.CheckPrefixLoop(n.partial, k, d, beyond);
      if prefix != Min(MAX_PREFIX, n.partialLen) { return; }
      d' := d + n.partialLen;
    }
    StillGood(NodePtr(n));
    var c := SearchByte(k, d');
    ShapedKid(n.tree, c);
    HI.BodyWf(n);
    next := FindChild(n.body, c);
    StillGood(NodePtr(n));
    HI.KidMatches(n, c);
    d' := d' + 1;
    NothingFrom<V>(k, d', beyond);
    if next.Some? { WeightDrops(n.tree, c); }
  }

  /** Insertion below an optional root pointer. */
  method InsertAtRoot<V>(root: Option<Ptr<V>>, k: Key, v: V, replace: bool, beyond: Beyond)
    returns (r: Ptr<V>, found: Option<V>)
    requires root.Some? ==> Good(root.value) && Shaped(Tree(root.value)) && Inv(Tree(root.value), [])
    modifies Objects(root)
    ensures Good(r) && Obj(r) in Repr(r) && fresh(Repr(r) - old(Objects(root)))
    ensures (Tree(r), found) == InsertRoot(old(TreeOf(root)), k, v, replace, beyond)
  {
    hide NodeSound, Inv, Shaped, InsertRoot;
    InsertRootIs(TreeOf(root), k, v, replace, beyond);
    if root.None? {
      var l := new LeafNode(k, v);
      r, found := LeafPtr(l), None;
      HI.GoodLeaf(l);
    } else {
      r, found := HI.Insert(root.value, k, v, 0, replace, beyond, []);
    }
    ObjInRepr(r);
  }

  class Art<V(!new)> {
    var root: Option<Ptr<V>>
    var size: nat
    ghost var contents: map<Key, V>

    ghost predicate Valid()
      reads this, if root.Some? then {Obj(root.value)} + Objects(root) else {}
    {
      && (root.Some? ==> Obj(root.value) in Objects(root) && Good(root.value))
      && this !in Objects(root)
      && Represents(State(TreeOf(root), size), contents)
    }

    constructor ()
      ensures Valid() && contents == map[] && size == 0 && Objects(root) == {}
    {
      root, size, contents := None, 0, map[];
    }

    /**
     Insertion at the root, with or without replacing the value of a key that is present.  The tree
     holds the new contents exactly when the key is present or apart from all present keys.
     */
    method Store(k: Key, v: V, replace: bool, beyond: Beyond) returns (found: Option<V>)
      requires Valid()
      modifies this, Objects(root)
      ensures Valid() <==> forall j :: j in old(contents) ==> j == k || Apart(j, k)
      ensures fresh(Objects(root) - old(Objects(root)))
      ensures found == Lookup(old(contents), k)
      ensures contents == if !replace && k in old(contents) then old(contents) else old(contents)[k := v]
    {
      hide NodeSound, Represents, Inv, Shaped, InsertRoot;
      ghost var op := if replace then OpInsert(k, v) else OpInsertNoReplace(k, v);
      ghost var s := State(TreeOf(root), size);
      RootReady(s, contents);
      StepRefinesExactly(s, contents, op, beyond);
      var r;
      r, found := InsertAtRoot(root, k, v, replace, beyond);
      root, contents := Some(r), MapStep(contents, op).0;
      if found.None? { size := size + 1; }
    }

    method Insert(k: Key, v: V, beyond: Beyond) returns (found: Option<V>)
      requires Valid()
      modifies this, Objects(root)
      ensures Valid() <==> forall j :: j in old(contents) ==> j == k || Apart(j, k)
      ensures fresh(Objects(root) - old(Objects(root)))
      ensures contents == old(contents)[k := v] && found == Lookup(old(contents), k)
    {
      found := Store(k, v, true, beyond);
    }

    method InsertNoReplace(k: Key, v: V, beyond: Beyond) returns (found: Option<V>)
      requires Valid()
      modifies this, Objects(root)
      ensures Valid() <==> forall j :: j in old(contents) ==> j == k || Apart(j, k)
      ensures fresh(Objects(root) - old(Objects(root)))
      ensures contents == (if k in old(contents) then old(contents) else old(contents)[k := v])
      ensures found == Lookup(old(contents), k)
    {
      found := Store(k, v, false, beyond);
    }

    method Delete(k: Key, beyond: Beyond) returns (found: Option<V>)
      requires Valid()
      modifies this, Objects(root)
      ensures Valid() && fresh(Objects(root) - old(Objects(root)))
      ensures contents == old(contents) - {k} && found == Lookup(old(contents), k)
    {
      hide NodeSound, Represents, Inv, Shaped, DeleteRoot;
      ghost var op: Op<V> := OpDelete(k);
      ghost var s := State(TreeOf(root), size);
      StepDefined(s, contents, op, beyond);
      StepRefines(s, contents, op, beyond);
      DeleteRootIs(s.root, k, beyond);
      found := None;
      if root.Some? {
        match root.value
        case LeafPtr(l) =>
          if l.key == k { root, found := None, Some(l.value); }
        case NodePtr(n) =>
          HI.HeaderIs(n);
          var r, f := HD.Delete(n, k, 0, beyond);
          ObjInRepr(r);
          root, found := Some(r), f;
      }
      contents := contents - {k};
      if found.Some? { size := size - 1; }
    }

    /** The search loop, which follows one branch and compares the whole key at the leaf. */
    method Search(k: Key, beyond: Beyond) returns (found: Option<V>)
      requires Valid()
      ensures found == Lookup(contents, k)
    {
      hide NodeSound, Shaped, SearchFrom, Weight, Lookup;
      SearchRefines(TreeOf(root), contents, k, beyond);
      HoldsShaped(TreeOf(root), contents);
      hide Represents;
      var next, depth: nat := root, 0;
      while next.Some?
        invariant next.Some? ==> Good(next.value) && Shaped(Tree(next.value))
        invariant SearchFrom(TreeOf(next), k, depth, beyond) == Lookup(contents, k)
        decreases if next.Some? then Weight(Tree(next.value)) + 1 else 0
      {
        match next.value
        case LeafPtr(l) =>
          SearchUnfold(Tree(next.value), k, depth, beyond);
          return if l.key == k then Some(l.value) else None;
        case NodePtr(n) =>
          next, depth := SearchNode(n, k, depth, beyond);
      }
      found := None;
      NothingFrom<V>(k, depth, beyond);
    }

    /**
     Iteration over all pairs: `all` lists the contents in strict key order, and the callback sees them
     one by one up to the first non-zero answer; one that never stops sees exactly the contents.
     */
    method Iterate(cb: seq<(Key, V)> -> int) returns (log: seq<(Key, V)>, res: int, ghost all: seq<(Key, V)>)
      requires Valid()
      ensures Lists(contents, [], all) && Walked([], all, cb, log, res)
      ensures (forall l :: cb(l) == 0) ==> log == all && res == 0
    {
      hide NodeSound, Represents, Inv, Shaped, Leaves, Upto, Walked, Lists;
      RootReady(State(TreeOf(root), size), contents);
      ListsRoot(State(TreeOf(root), size), contents);
      if root.None? {
        log, res, all := [], 0, [];
        IT.UptoNone([], cb);
      } else {
        all := Leaves(Tree(root.value));
        log, res := IT.Iterate(root.value, cb, []);
      }
      UptoWalks([], all, cb);
      if forall l :: cb(l) == 0 { UptoAll([], all, cb); }
    }

    /**
     Iteration by prefix: only pairs of the contents are visited, in strict key order; if some key has
     the prefix, they are exactly the pairs whose key has it.
     */
    method IteratePrefix(k: Key, beyond: Beyond, cb: seq<(Key, V)> -> int)
      returns (log: seq<(Key, V)>, res: int, ghost all: seq<(Key, V)>)
      requires Valid()
      ensures Walked([], all, cb, log, res) && SortedPairs(all)
      ensures forall j, v :: (j, v) in all ==> Lookup(contents, j) == Some(v)
      ensures (exists j :: j in contents && k <= j) ==> Lists(contents, k, all)
    {
      hide NodeSound, Represents, Inv, Shaped, Found, Upto, Walked, Lists, SortedPairs;
      RootReady(State(TreeOf(root), size), contents);
      PrefixRoot(State(TreeOf(root), size), contents, k, beyond);
      all := IT.ToFind(root, k, 0, beyond);
      log, res := IT.IteratePrefix(root, k, beyond, cb);
      UptoWalks([], all, cb);
    }
  }

  /** The pairs of the map whose key has the prefix, in strict key order. */
  ghost predicate Lists<V(!new)>(m: map<Key, V>, k: Key, all: seq<(Key, V)>) {
    SortedPairs(all) && forall j, v :: (j, v) in all <==> k <= j && Lookup(m, j) == Some(v)
  }

  lemma ListsRoot<V(!new)>(s: State<V>, m: map<Key, V>)
    requires Represents(s, m)
    ensures s.root.None? ==> Lists(m, [], [])
    ensures s.root.Some? ==> Lists(m, [], Leaves(s.root.value))
  {
    hide Inv, HasLeaf, Leaves, SortedPairs;
    if s.root.Some? {
      var n := s.root.value;
      LeavesSorted(n, []);
      forall j, v ensures (j, v) in Leaves(n) <==> Lookup(m, j) == Some(v) { LeavesHas(n, j, v); }
    } else {
      NoneSorted<V>();
    }
  }

  lemma PrefixRoot<V(!new)>(s: State<V>, m: map<Key, V>, k: Key, beyond: Beyond)
    requires Represents(s, m)
    ensures var all := if s.root.Some? then Found(s.root.value, k, 0, beyond) else [];
            && SortedPairs(all)
            && (forall j, v :: (j, v) in all ==> Lookup(m, j) == Some(v))
            && ((exists j :: j in m && k <= j) ==> Lists(m, k, all))
  {
    hide Inv, HasLeaf, Found, SortedPairs;
    if s.root.Some? {
      var n := s.root.value;
      FoundSorted(n, [], k, 0, beyond);
      if j :| j in m && k <= j {
        assert Lookup(m, j) == Some(m[j]);
        PrefixVisited(n, k, beyond, j, m[j]);
      }
    } else {
      NoneSorted<V>();
    }
  }

  lemma RootReady<V(!new)>(s: State<V>, m: map<Key, V>)
    requires Represents(s, m)
    ensures s.root.Some? ==> Shaped(s.root.value) && Inv(s.root.value, [])
  {
    HoldsShaped(s.root, m);
  }

  lemma InsertRootIs<V>(root: Option<Node<V>>, k: Key, v: V, replace: bool, beyond: Beyond)
    requires root.Some? ==> Shaped(root.value)
    ensures InsertRoot(root, k, v, replace, beyond) ==
            if root.None? then (Leaf(k, v), None) else ArtInsert.Insert(root.value, k, v, 0, replace, beyond)
  {
  }

  lemma DeleteRootIs<V>(root: Option<Node<V>>, k: Key, beyond: Beyond)
    requires root.Some? ==> Shaped(root.value)
    ensures root.None? ==> DeleteRoot(root, k, beyond) == (None, None)
    ensures root.Some? && root.value.Leaf? ==>
              DeleteRoot(root, k, beyond) == if root.value.key == k then (None, Some(root.value.value)) else (root, None)
    ensures root.Some? && root.value.Inner? ==>
              var r := ArtDelete.Delete(root.value, k, 0, beyond); DeleteRoot(root, k, beyond) == (Some(r.0), r.1)
  {
  }
}
