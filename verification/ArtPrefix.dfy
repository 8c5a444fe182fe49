/**
 Iteration over the keys that start with a prefix.  The walk descends even when the key leaves a
 compressed prefix part way through, so it can end at keys that do not have the prefix.
 */
module ArtPrefix {

  import opened ArtLayout
  import opened ArtTree
  import opened ArtInsert
  import opened ArtIter
  import opened ArtMap

  /** How far the key follows the node's prefix, never more than its length. */
  function Followed<V>(n: Node<V>, k: Key, d: nat, beyond: Beyond): nat
    requires n.Inner?
  {
    Min(PrefixMismatch(n, k, d, beyond), n.partialLen)
  }

  /** The pairs that the walk hands to the callback. */
  function Found<V>(n: Node<V>, k: Key, d: nat, beyond: Beyond): seq<(Key, V)>
    decreases n
  {
    match n
    case Leaf(key, value) => if k <= key then [(key, value)] else []
    case Inner(partialLen, _, body) =>
      if d == |k| then (if k <= MinKey(n) then Leaves(n) else [])
      else if partialLen > 0 && Followed(n, k, d, beyond) == 0 then []
      else if partialLen > 0 && d + Followed(n, k, d, beyond) == |k| then Leaves(n)
      else
        var c := KeyByte(k, d + partialLen, beyond);
        if Get(body, c).Some? then Found(Get(body, c).value, k, d + partialLen + 1, beyond) else []
  }

  /**
   The walk ends inside a node's prefix although the key had left a prefix before (`lost`), or does
   so from here on.
   */
  predicate Misled<V>(n: Node<V>, k: Key, d: nat, beyond: Beyond, lost: bool)
    decreases n
  {
    match n
    case Leaf(_, _) => false
    case Inner(partialLen, _, body) =>
      if d == |k| then false
      else if partialLen > 0 && Followed(n, k, d, beyond) == 0 then false
      else if partialLen > 0 && d + Followed(n, k, d, beyond) == |k| then lost
      else
        var c := KeyByte(k, d + partialLen, beyond);
        var lost' := lost || (partialLen > 0 && Followed(n, k, d, beyond) < partialLen);
        Get(body, c).Some? && Misled(Get(body, c).value, k, d + partialLen + 1, beyond, lost')
  }

  /** Whether the walk stops at an inner node. */
  predicate Stops<V>(n: Node<V>, k: Key, d: nat, beyond: Beyond)
    requires n.Inner?
  {
    d == |k| || (n.partialLen > 0 && (Followed(n, k, d, beyond) == 0 || d + Followed(n, k, d, beyond) == |k|))
  }

  lemma WalkStep<V>(n: Node<V>, k: Key, d: nat, beyond: Beyond, lost: bool, c: Byte)
    requires n.Inner? && !Stops(n, k, d, beyond) && c == KeyByte(k, d + n.partialLen, beyond)
    ensures Found(n, k, d, beyond) ==
            if Get(n.body, c).Some? then Found(Get(n.body, c).value, k, d + n.partialLen + 1, beyond) else []
    ensures Misled(n, k, d, beyond, lost) <==>
            Get(n.body, c).Some? &&
            Misled(Get(n.body, c).value, k, d + n.partialLen + 1, beyond,
                   lost || (n.partialLen > 0 && Followed(n, k, d, beyond) < n.partialLen))
  {
    hide Followed, Get;
  }

  lemma StopStep<V>(n: Node<V>, k: Key, d: nat, beyond: Beyond, lost: bool)
    requires n.Inner? && Stops(n, k, d, beyond)
    ensures Found(n, k, d, beyond) ==
            if d == |k| then (if k <= MinKey(n) then Leaves(n) else [])
            else if Followed(n, k, d, beyond) == 0 then [] else Leaves(n)
    ensures Misled(n, k, d, beyond, lost) <==> d != |k| && Followed(n, k, d, beyond) != 0 && lost
  {
    hide Followed, Get, Leaves, MinKey;
  }

  /** No key below has the prefix. */
  ghost predicate NoneHas<V(!new)>(n: Node<V>, k: Key) {
    forall j, w :: HasLeaf(n, j, w) ==> !(k <= j)
  }

  lemma ChildNoneHas<V(!new)>(n: Node<V>, c: Byte, k: Key)
    requires n.Inner? && NoneHas(n, k) && Get(n.body, c).Some?
    ensures NoneHas(Get(n.body, c).value, k)
  {
    hide Get;
    forall j, w | HasLeaf(Get(n.body, c).value, j, w) ensures !(k <= j) {
      assert HasLeaf(n, j, w);
    }
  }

  lemma LostLeaf<V(!new)>(n: Node<V>, k: Key, d: nat, beyond: Beyond)
    requires n.Leaf? && NoneHas(n, k)
    ensures Found(n, k, d, beyond) == [] && !Misled(n, k, d, beyond, true)
  {
    assert HasLeaf(n, n.key, n.value);
  }

  /** Where no key has the prefix, the walk finds something exactly when it is misled. */
  lemma {:induction false} LostWalk<V(!new)>(n: Node<V>, pre: Key, k: Key, d: nat, beyond: Beyond)
    requires Inv(n, pre) && NoneHas(n, k)
    ensures Found(n, k, d, beyond) != [] <==> Misled(n, k, d, beyond, true)
    decreases Weight(n)
  {
    hide Inv, HasLeaf, Path, Get, Weight, Found, Misled, NoneHas, Stops, Leaves, MinKey, Followed;
    if n.Leaf? {
      LostLeaf(n, k, d, beyond);
    } else {
      InvInner(n, pre);
      MinimumIsFirst(n, pre);
      if Stops(n, k, d, beyond) {
        StopStep(n, k, d, beyond, true);
        MinNoneHas(n, pre, k);
      } else {
        var c := KeyByte(k, d + n.partialLen, beyond);
        WalkStep(n, k, d, beyond, true, c);
        if Get(n.body, c).Some? {
          WeightDrops(n, c);
          ChildNoneHas(n, c, k);
          LostWalk(Get(n.body, c).value, Path(n, pre) + [c], k, d + n.partialLen + 1, beyond);
        }
      }
    }
  }

  lemma MinNoneHas<V(!new)>(n: Node<V>, pre: Key, k: Key)
    requires Inv(n, pre) && NoneHas(n, k)
    ensures !(k <= MinKey(n))
  {
    hide Inv, HasLeaf, MinKey;
    var v := MinKeyIsLeaf(n, pre);
  }

  /** The walk finds exactly the pairs whose key has the prefix. */
  ghost predicate Exact<V(!new)>(n: Node<V>, k: Key, found: seq<(Key, V)>) {
    forall j, w :: (j, w) in found <==> HasLeaf(n, j, w) && k <= j
  }

  lemma ExactAll<V(!new)>(n: Node<V>, k: Key)
    requires forall j, w :: HasLeaf(n, j, w) ==> k <= j
    ensures Exact(n, k, Leaves(n))
  {
    hide HasLeaf, Leaves;
    forall j, w ensures (j, w) in Leaves(n) <==> HasLeaf(n, j, w) && k <= j { LeavesHas(n, j, w); }
  }

  /** The node's path starts with the prefix, so all its leaves do. */
  lemma PathHas<V(!new)>(n: Node<V>, pre: Key, k: Key)
    requires n.Inner? && Inv(n, pre) && k <= Path(n, pre)
    ensures Exact(n, k, Leaves(n)) && k <= MinKey(n)
  {
    hide Inv, HasLeaf, Leaves, MinKey, Path, Get;
    forall j, w | HasLeaf(n, j, w) ensures k <= j { LeafExtends(n, pre, j, w); }
    ExactAll(n, k);
    var v := MinKeyIsLeaf(n, pre);
  }

  lemma NothingExact<V(!new)>(n: Node<V>, k: Key)
    requires NoneHas(n, k)
    ensures Exact(n, k, [])
  {
    hide HasLeaf;
  }

  /** A key that leaves the path has no extension below. */
  lemma LeftPath<V(!new)>(n: Node<V>, pre: Key, k: Key, e: nat)
    requires n.Inner? && Inv(n, pre) && e < |k| && e < |Path(n, pre)| && k[e] != Path(n, pre)[e]
    ensures NoneHas(n, k)
  {
    hide Inv, HasLeaf, Path, Get;
    forall j, w | HasLeaf(n, j, w) ensures !(k <= j) {
      LeafExtends(n, pre, j, w);
      assert j[e] == Path(n, pre)[e];
    }
  }

  /** Below the child of the next byte are all the keys with the prefix. */
  lemma ExactBelow<V(!new)>(n: Node<V>, pre: Key, k: Key, found: seq<(Key, V)>)
    requires n.Inner? && Inv(n, pre) && |Path(n, pre)| < |k|
    requires var c := k[|Path(n, pre)|];
             if Get(n.body, c).Some? then Exact(Get(n.body, c).value, k, found) else found == []
    ensures Exact(n, k, found)
  {
    hide Inv, HasLeaf, Path, Get;
    var c := k[|Path(n, pre)|];
    forall j, w ensures (j, w) in found <==> HasLeaf(n, j, w) && k <= j {
      HasOrElsewhere(n, c, j, w);
      if HasLeaf(n, j, w) && k <= j {
        LeafExtends(n, pre, j, w);
        assert j[|Path(n, pre)|] == c;
      }
    }
  }

  lemma FirstListed<V>(found: seq<(Key, V)>) returns (k: Key, v: V)
    requires found != []
    ensures (k, v) in found
  {
    k, v := found[0].0, found[0].1;
    assert found[0] == (k, v);
  }

  lemma ListedNoneHas<V(!new)>(n: Node<V>, k: Key, found: seq<(Key, V)>)
    requires NoneHas(n, k) && Exact(n, k, found)
    ensures found == []
  {
    hide HasLeaf;
    if found != [] {
      var j, w := FirstListed(found);
      assert false;
    }
  }

  /** Where the key left the path, what the walk finds is right exactly when it finds nothing. */
  lemma LostExact<V(!new)>(n: Node<V>, pre: Key, k: Key, found: seq<(Key, V)>)
    requires NoneHas(n, k)
    ensures Exact(n, k, found) <==> found == []
  {
    hide HasLeaf, Exact, NoneHas;
    NothingExact(n, k);
    if Exact(n, k, found) { ListedNoneHas(n, k, found); }
  }

  /** A walk that stops at a node the key leads to finds the right pairs. */
  lemma StopExact<V(!new)>(n: Node<V>, k: Key, d: nat, beyond: Beyond)
    requires n.Inner? && d <= |k| && Inv(n, k[..d]) && Stops(n, k, d, beyond)
    ensures Exact(n, k, Found(n, k, d, beyond)) && !Misled(n, k, d, beyond, false)
  {
    hide Inv, HasLeaf, Path, Get, Found, Misled, Leaves, MinKey, PrefixMismatch, Exact;
    var pre := k[..d];
    var path := Path(n, pre);
    InvInner(n, pre);
    NodeMismatch(n, k, d, beyond);
    StopStep(n, k, d, beyond, false);
    if d == |k| {
      assert pre == k;
      PathHas(n, pre, k);
    } else if Followed(n, k, d, beyond) == 0 {
      LeftPath(n, pre, k, d);
      NothingExact(n, k);
    } else {
      AgreeIsPrefix(k, path, |k|);
      assert k[..|k|] == k;
      PathHas(n, pre, k);
    }
  }

  /**
   From a node that the key leads to, the walk finds exactly the keys with the prefix if and only
   if it is not misled, and it is misled only where no key has the prefix.
   */
  lemma {:induction false} FoundExactly<V(!new)>(n: Node<V>, k: Key, d: nat, beyond: Beyond)
    requires d <= |k| && Inv(n, k[..d])
    ensures Exact(n, k, Found(n, k, d, beyond)) <==> !Misled(n, k, d, beyond, false)
    ensures Misled(n, k, d, beyond, false) ==> NoneHas(n, k)
    decreases Weight(n)
  {
    hide Inv, HasLeaf, Path, Get, Weight, Found, Misled, Exact, Stops, NoneHas;
    if n.Leaf? {
      LeafFound(n, k, d, beyond);
    } else {
      if Stops(n, k, d, beyond) {
        StopExact(n, k, d, beyond);
      } else {
        FoundBelow(n, k, d, beyond);
      }
    }
  }

  lemma LeafFound<V(!new)>(n: Node<V>, k: Key, d: nat, beyond: Beyond)
    requires n.Leaf?
    ensures Exact(n, k, Found(n, k, d, beyond)) && !Misled(n, k, d, beyond, false)
  {
  }

  lemma {:induction false} FoundBelow<V(!new)>(n: Node<V>, k: Key, d: nat, beyond: Beyond)
    requires d <= |k| && Inv(n, k[..d]) && n.Inner? && !Stops(n, k, d, beyond)
    ensures Exact(n, k, Found(n, k, d, beyond)) <==> !Misled(n, k, d, beyond, false)
    ensures Misled(n, k, d, beyond, false) ==> NoneHas(n, k)
    decreases Weight(n), 0
  {
    hide Inv, HasLeaf, Path, Get, Weight, Found, Misled, Exact, Followed, Stops, NoneHas;
    if n.partialLen > 0 && Followed(n, k, d, beyond) < n.partialLen {
      LostBelow(n, k, d, beyond);
      PathLeft(n, k, d, beyond);
    } else {
      var pre := k[..d];
      var path := Path(n, pre);
      InvInner(n, pre);
      PathFollowed(n, k, d, beyond);
      var c := k[|path|];
      WalkStep(n, k, d, beyond, false, c);
      if Get(n.body, c).Some? {
        WeightDrops(n, c);
        assert k[..|path| + 1] == path + [c];
        FoundExactly(Get(n.body, c).value, k, |path| + 1, beyond);
        ExactChild(n, pre, k, Found(n, k, d, beyond));
        NoneHasChild(n, pre, k);
      } else {
        ExactBelow(n, pre, k, []);
      }
    }
  }

  lemma PathFollowed<V>(n: Node<V>, k: Key, d: nat, beyond: Beyond)
    requires d <= |k| && Inv(n, k[..d]) && n.Inner? && !Stops(n, k, d, beyond)
    requires n.partialLen > 0 ==> Followed(n, k, d, beyond) >= n.partialLen
    ensures var path := Path(n, k[..d]); |path| == d + n.partialLen && |path| < |k| && path == k[..|path|]
  {
    hide Inv, Path, Get, PrefixMismatch;
    InvInner(n, k[..d]);
    NodeMismatch(n, k, d, beyond);
    KeyFollows(k, Path(n, k[..d]), d, n.partialLen);
  }

  lemma KeyFollows(k: Key, path: Key, d: nat, len: nat)
    requires d < |k| && |path| == d + len && k[..d] <= path
    requires len > 0 ==> AgreeTo(k, path, |path|) && |path| != |k|
    ensures |path| < |k| && path == k[..|path|]
  {
  }

  lemma NoneHasChild<V(!new)>(n: Node<V>, pre: Key, k: Key)
    requires n.Inner? && Inv(n, pre) && |Path(n, pre)| < |k|
    requires Get(n.body, k[|Path(n, pre)|]).Some?
    ensures NoneHas(Get(n.body, k[|Path(n, pre)|]).value, k) ==> NoneHas(n, k)
  {
    hide Inv, HasLeaf, Path, Get;
    forall j, w | HasLeaf(n, j, w) && k <= j ensures HasLeaf(Get(n.body, k[|Path(n, pre)|]).value, j, w) {
      LeafExtends(n, pre, j, w);
    }
  }

  lemma ExactChild<V(!new)>(n: Node<V>, pre: Key, k: Key, found: seq<(Key, V)>)
    requires n.Inner? && Inv(n, pre) && |Path(n, pre)| < |k| && Path(n, pre) == k[..|Path(n, pre)|]
    requires Get(n.body, k[|Path(n, pre)|]).Some?
    ensures Exact(n, k, found) <==> Exact(Get(n.body, k[|Path(n, pre)|]).value, k, found)
  {
    hide Inv, HasLeaf, Path, Get, Elsewhere;
    var c := k[|Path(n, pre)|];
    forall j, w ensures HasLeaf(n, j, w) && k <= j <==> HasLeaf(Get(n.body, c).value, j, w) && k <= j {
      HasOrElsewhere(n, c, j, w);
      if HasLeaf(n, j, w) && k <= j { LeafExtends(n, pre, j, w); }
    }
  }

  /** The key leaves the node's prefix part way through. */
  lemma LostBelow<V(!new)>(n: Node<V>, k: Key, d: nat, beyond: Beyond)
    requires d <= |k| && Inv(n, k[..d]) && n.Inner? && !Stops(n, k, d, beyond)
    requires n.partialLen > 0 && Followed(n, k, d, beyond) < n.partialLen
    ensures Exact(n, k, Found(n, k, d, beyond)) <==> !Misled(n, k, d, beyond, false)
  {
    hide Inv, HasLeaf, Path, Get, Found, Misled, Exact, Followed, Stops, NoneHas;
    var pre, c := k[..d], KeyByte(k, d + n.partialLen, beyond);
    InvInner(n, pre);
    PathLeft(n, k, d, beyond);
    WalkStep(n, k, d, beyond, false, c);
    LostExact(n, pre, k, Found(n, k, d, beyond));
    if Get(n.body, c).Some? {
      ChildNoneHas(n, c, k);
      LostWalk(Get(n.body, c).value, Path(n, pre) + [c], k, d + n.partialLen + 1, beyond);
    }
  }

  lemma PathLeft<V(!new)>(n: Node<V>, k: Key, d: nat, beyond: Beyond)
    requires d <= |k| && Inv(n, k[..d]) && n.Inner? && !Stops(n, k, d, beyond)
    requires n.partialLen > 0 && Followed(n, k, d, beyond) < n.partialLen
    ensures NoneHas(n, k)
  {
    hide Inv, Path, Get, PrefixMismatch, NoneHas;
    NodeMismatch(n, k, d, beyond);
    LeftPath(n, k[..d], k, d + PrefixMismatch(n, k, d, beyond));
  }

  // ----- The whole tree -----

  /** If some stored key has the prefix, exactly the keys with the prefix are visited. */
  lemma PrefixVisited<V(!new)>(n: Node<V>, k: Key, beyond: Beyond, j: Key, v: V)
    requires Inv(n, []) && HasLeaf(n, j, v) && k <= j
    ensures Exact(n, k, Found(n, k, 0, beyond))
  {
    hide Inv, HasLeaf, Found, Misled, Exact;
    assert k[..0] == [];
    FoundExactly(n, k, 0, beyond);
  }

  ghost predicate AllStored<V>(n: Node<V>, s: seq<(Key, V)>) {
    forall i :: 0 <= i < |s| ==> HasLeaf(n, s[i].0, s[i].1)
  }

  lemma StoredBelow<V>(n: Node<V>, c: Byte, s: seq<(Key, V)>)
    requires n.Inner? && Get(n.body, c).Some? && AllStored(Get(n.body, c).value, s)
    ensures AllStored(n, s)
  {
    hide Get, HasLeaf;
    forall i | 0 <= i < |s| ensures HasLeaf(n, s[i].0, s[i].1) { HasOrElsewhere(n, c, s[i].0, s[i].1); }
  }

  lemma LeavesStored<V>(n: Node<V>)
    ensures AllStored(n, Leaves(n))
  {
    hide HasLeaf, Leaves;
    var s := Leaves(n);
    forall i | 0 <= i < |s| ensures HasLeaf(n, s[i].0, s[i].1) {
      assert s[i] == (s[i].0, s[i].1);
      LeavesHas(n, s[i].0, s[i].1);
    }
  }

  /** Whatever is visited is stored, and is visited in key order. */
  lemma {:induction false} FoundSorted<V>(n: Node<V>, pre: Key, k: Key, d: nat, beyond: Beyond)
    requires Inv(n, pre)
    ensures SortedPairs(Found(n, k, d, beyond))
    ensures AllStored(n, Found(n, k, d, beyond))
    decreases Weight(n)
  {
    hide Inv, HasLeaf, Path, Get, Weight, Found, Stops, Followed, SortedPairs, AllStored;
    if n.Leaf? {
      LeafSorted(n, k, d, beyond);
    } else {
      if Stops(n, k, d, beyond) {
        StopSorted(n, pre, k, d, beyond);
      } else {
        var c := KeyByte(k, d + n.partialLen, beyond);
        WalkStep(n, k, d, beyond, true, c);
        NoneSorted<V>();
        if Get(n.body, c).Some? {
          InvInner(n, pre);
          WeightDrops(n, c);
          FoundSorted(Get(n.body, c).value, Path(n, pre) + [c], k, d + n.partialLen + 1, beyond);
          StoredBelow(n, c, Found(n, k, d, beyond));
        } else {
          assert AllStored(n, []) by { NoneStored(n); }
        }
      }
    }
  }

  lemma LeafSorted<V>(n: Node<V>, k: Key, d: nat, beyond: Beyond)
    requires n.Leaf?
    ensures SortedPairs(Found(n, k, d, beyond)) && AllStored(n, Found(n, k, d, beyond))
  {
  }

  lemma StopSorted<V>(n: Node<V>, pre: Key, k: Key, d: nat, beyond: Beyond)
    requires n.Inner? && Inv(n, pre) && Stops(n, k, d, beyond)
    ensures SortedPairs(Found(n, k, d, beyond))
    ensures AllStored(n, Found(n, k, d, beyond))
  {
    hide Inv, HasLeaf, Found, Stops, Leaves, MinKey, Followed, SortedPairs;
    StopStep(n, k, d, beyond, true);
    LeavesSorted(n, pre);
    NoneSorted<V>();
    LeavesStored(n);
  }

  lemma NoneStored<V>(n: Node<V>)
    ensures AllStored(n, [])
  {
  }

  lemma NoneSorted<V>()
    ensures SortedPairs<V>([])
  {
  }

  // ----- A misled walk -----

  /**
   Three insertions into an empty tree build a sound tree in which the walk for a prefix that no key
   has ends at two keys.
   */
  lemma MisledTree(beyond: Beyond, beyond': Beyond) returns (s1: State<int>, s2: State<int>, s3: State<int>, k: Key)
    ensures Leads(State(None, 0), OpInsert([0, 0, 0, 0, 0], 1), beyond, s1)
    ensures Leads(s1, OpInsert([0, 0, 0, 0, 1], 2), beyond, s2) && Leads(s2, OpInsert([0, 0, 1], 3), beyond, s3)
    ensures s3.root.Some? && Inv(s3.root.value, []) && NoneHas(s3.root.value, k) && |Found(s3.root.value, k, 0, beyond')| == 2
  {
    hide Inv, NoneHas, Found, Insert, Shaped, Leads, Two;
    var x, y, z := Leaf([0, 0, 0, 0, 0], 1), Leaf([0, 0, 0, 0, 1], 2), Leaf([0, 0, 1], 3);
    var m := Inner(1, [0], Two(0, x, 1, y));
    var n := Inner(2, [0, 0], Two(0, m, 1, z));
    k := [0, 1, 0, 0];
    s1, s2, s3 := State(Some(x), 1), State(Some(Inner(4, [0, 0, 0, 0], Two(0, x, 1, y))), 2), State(Some(n), 3);
    MisledBuilt(x, y, z, s2.root.value, n, beyond);
    MisledInv(n, m, x, y, z);
    MisledNone(n, m, x, y, z, k);
    MisledStart(n, m, z, k, beyond');
    MisledEnd(m, x, y, k, beyond');
    FirstLeads(x.key, 1, beyond);
    InsertLeads(x, 1, y.key, 2, beyond, s2.root.value);
    InsertLeads(s2.root.value, 2, z.key, 3, beyond, n);
  }

  /** The two splits that build the tree. */
  lemma MisledBuilt(x: Node<int>, y: Node<int>, z: Node<int>, n: Node<int>, n': Node<int>, beyond: Beyond)
    requires x == Leaf([0, 0, 0, 0, 0], 1) && y == Leaf([0, 0, 0, 0, 1], 2) && z == Leaf([0, 0, 1], 3)
    requires n == Inner(4, [0, 0, 0, 0], Two(0, x, 1, y)) && n' == Inner(2, [0, 0], Two(0, Inner(1, [0], n.body), 1, z))
    ensures Shaped(x) && Insert(x, y.key, 2, 0, true, beyond) == (n, None)
    ensures Shaped(n) && Insert(n, z.key, 3, 0, true, beyond) == (n', None)
  {
    hide Insert, Shaped, Two, Inv;
    var path := [0, 0, 0, 0];
    assert path[0..4] == path;
    MisledLeaves(x, y, path);
    InsertAtLeaf(x, y.key, 2, 0, true, beyond);
    assert CommonFrom(x.key, y.key, 0) == 4;
    assert Take(Drop(y.key, 0), 4) == path;
    TwoInv(n, [], path, 0, x, 1, y);
    InvShaped(n, []);
    assert CheckPrefix(n.partial, z.key, 0, beyond) == 2;
    InsertSplits(n, z.key, 3, 0, true, beyond);
    assert Take(n.partial, 2) == [0, 0] && Drop(n.partial, 3) == [0];
  }

  lemma MisledLeaves(x: Node<int>, y: Node<int>, path: Key)
    requires x == Leaf([0, 0, 0, 0, 0], 1) && y == Leaf([0, 0, 0, 0, 1], 2) && path == [0, 0, 0, 0]
    ensures Shaped(x) && Inv(x, path + [0]) && Inv(y, path + [1])
  {
  }

  lemma MisledInv(n: Node<int>, m: Node<int>, x: Node<int>, y: Node<int>, z: Node<int>)
    requires x == Leaf([0, 0, 0, 0, 0], 1) && y == Leaf([0, 0, 0, 0, 1], 2) && z == Leaf([0, 0, 1], 3)
    requires m == Inner(1, [0], Two(0, x, 1, y)) && n == Inner(2, [0, 0], Two(0, m, 1, z))
    ensures Inv(n, [])
  {
    hide Two;
    var pre, path := [0, 0, 0], [0, 0, 0, 0];
    assert path[3..4] == [0];
    TwoInv(m, pre, path, 0, x, 1, y);
    assert pre == [0, 0] + [0];
    TwoInv(n, [], [0, 0], 0, m, 1, z);
  }

  lemma MisledNone(n: Node<int>, m: Node<int>, x: Node<int>, y: Node<int>, z: Node<int>, k: Key)
    requires x == Leaf([0, 0, 0, 0, 0], 1) && y == Leaf([0, 0, 0, 0, 1], 2) && z == Leaf([0, 0, 1], 3)
    requires m == Inner(1, [0], Two(0, x, 1, y)) && n == Inner(2, [0, 0], Two(0, m, 1, z)) && k == [0, 1, 0, 0]
    ensures NoneHas(n, k)
  {
    hide Two, HasLeaf, Get;
    LeafHas(x.key, x.value);
    LeafHas(y.key, y.value);
    LeafHas(z.key, z.value);
    forall j, w | HasLeaf(n, j, w) ensures !(k <= j) {
      HasTwo(n, 0, m, 1, z, j, w);
      HasTwo(m, 0, x, 1, y, j, w);
      assert j[1] == 0;
    }
  }

  lemma MisledStart(n: Node<int>, m: Node<int>, z: Node<int>, k: Key, beyond: Beyond)
    requires n == Inner(2, [0, 0], Two(0, m, 1, z)) && k == [0, 1, 0, 0]
    ensures Found(n, k, 0, beyond) == Found(m, k, 3, beyond)
  {
    TwoGet(0, m, 1, z, 0);
    assert CheckPrefix([0, 0], k, 0, beyond) == 1;
    hide Two, Get, CheckPrefix, Found;
    WalkStep(n, k, 0, beyond, false, 0);
  }

  lemma MisledEnd(m: Node<int>, x: Node<int>, y: Node<int>, k: Key, beyond: Beyond)
    requires m == Inner(1, [0], Two(0, x, 1, y)) && x.Leaf? && y.Leaf? && k == [0, 1, 0, 0]
    ensures |Found(m, k, 3, beyond)| == 2
  {
    assert Two(0, x, 1, y) == Node4([0, 1], [x, y]);
    SmallIs(m, [0, 1], [x, y]);
    assert CheckPrefix([0], k, 3, beyond) == 1;
    hide Two, Get, CheckPrefix, Found, Leaves;
    StopStep(m, k, 3, beyond, true);
    KidsTwo(x, y);
  }

  lemma KidsTwo<V>(x: Node<V>, y: Node<V>)
    requires x.Leaf? && y.Leaf?
    ensures KidLeaves([x, y], 2) == [(x.key, x.value), (y.key, y.value)]
  {
    assert KidLeaves([x, y], 1) == [(x.key, x.value)];
  }
}
