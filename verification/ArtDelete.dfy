/**
 Deletion from the adaptive radix tree: the child is removed from its node, and a node left
 with a single child is merged into it.
 */
module ArtDelete {

  import opened ArtLayout
  import opened ArtTree
  import opened ArtInsert

  // ----- The operation -----

  /** The stored prefix of a child that takes over its parent's prefix and branch byte. */
  function JoinPrefix(partialLen: nat, partial: seq<Byte>, key: Byte, subLen: nat, sub: seq<Byte>): seq<Byte> {
    var joined := if partialLen < MAX_PREFIX then Take(partial, partialLen) + [key] else Take(partial, MAX_PREFIX);
    if partialLen + 1 < MAX_PREFIX then joined + Take(sub, Min(subLen, MAX_PREFIX - (partialLen + 1))) else joined
  }

  /** The only child of a node takes the node's place. */
  function Collapse<V>(partialLen: nat, partial: seq<Byte>, key: Byte, child: Node<V>): Node<V> {
    match child
    case Leaf(_, _) => child
    case Inner(subLen, sub, body) =>
      Inner(subLen + partialLen + 1, JoinPrefix(partialLen, partial, key, subLen, sub), body)
  }

  function RemoveChild<V>(n: Node<V>, c: Byte): Node<V>
    requires n.Inner? && Wf(n.body) && Get(n.body, c).Some?
  {
    var body := Remove(n.body, c);
    if body.Node4? && |body.keys| == 1 && |body.kids| == 1 then Collapse(n.partialLen, n.partial, body.keys[0], body.kids[0])
    else Inner(n.partialLen, n.partial, body)
  }

  /** Deletion below an inner node: the new node and the value that was removed. */
  function Delete<V>(n: Node<V>, k: Key, d: nat, beyond: Beyond): (Node<V>, Option<V>)
    requires n.Inner? && Shaped(n)
    decreases n
  {
    var c := KeyByte(k, d + n.partialLen, beyond);
    if PrefixFails(n, k, d, beyond) || Get(n.body, c).None? then (n, None)
    else
      match Get(n.body, c).value
      case Leaf(key, value) => if key == k then (RemoveChild(n, c), Some(value)) else (n, None)
      case Inner(_, _, _) =>
        var (child, found) := Delete(Get(n.body, c).value, k, d + n.partialLen + 1, beyond);
        (Inner(n.partialLen, n.partial, Replace(n.body, c, child)), found)
  }

  // ----- Merging a node into its only child -----

  /** Two adjacent slices and the byte between them. */
  lemma JoinSlices(s: Key, a: nat, len: nat, partial: seq<Byte>, sub: seq<Byte>)
    requires a + len < |s|
    requires partial == s[a..a + Min(MAX_PREFIX, len)]
    requires var rest := a + len + 1; sub == s[rest..rest + Min(MAX_PREFIX, |s| - rest)]
    ensures JoinPrefix(len, partial, s[a + len], |s| - (a + len + 1), sub) == s[a..a + Min(MAX_PREFIX, |s| - a)]
  {
    var rest := a + len + 1;
    if len < MAX_PREFIX {
      assert partial + [s[a + len]] == s[a..rest];
      if len + 1 < MAX_PREFIX {
        var more := Min(|s| - rest, MAX_PREFIX - (len + 1));
        SliceOfSlice(s, rest, Min(MAX_PREFIX, |s| - rest), more);
        assert s[a..rest] + s[rest..rest + more] == s[a..rest + more];
      }
    }
  }

  lemma SliceOf(s: Key, path: Key, key: Byte, a: nat, b: nat)
    requires path + [key] <= s && a <= b <= |path|
    ensures path[a..b] == s[a..b] && s[|path|] == key
  {
    assert s[..|path| + 1] == path + [key];
    assert s[|path|] == (path + [key])[|path|];
    assert path == s[..|path|];
  }

  /** The joined prefix is the stored part of the child's path after `pre`. */
  lemma JoinedPrefix(pre: Key, path: Key, key: Byte, sub: Key, len: nat, partial: seq<Byte>, stored: seq<Byte>)
    requires pre <= path && |path| == |pre| + len && path + [key] <= sub
    requires partial == path[|pre|..|pre| + Min(MAX_PREFIX, len)]
    requires var rest := |path| + 1; stored == sub[rest..rest + Min(MAX_PREFIX, |sub| - rest)]
    ensures pre <= sub
    ensures JoinPrefix(len, partial, key, |sub| - (|path| + 1), stored) == sub[|pre|..|pre| + Min(MAX_PREFIX, |sub| - |pre|)]
  {
    SliceOf(sub, path, key, |pre|, |pre| + Min(MAX_PREFIX, len));
    hide JoinPrefix;
    assert pre <= sub by {
      SliceOf(sub, path, key, 0, |pre|);
      assert pre == path[0..|pre|];
    }
    JoinSlices(sub, |pre|, len, partial, stored);
  }

  lemma CollapsedOk<V>(child: Node<V>, path: Key, m: Node<V>, pre: Key, sub: Key)
    requires child.Inner? && InnerOk(child, path, sub)
    requires m.Inner? && m.body == child.body && pre <= sub && m.partialLen == |sub| - |pre|
    requires m.partial == sub[|pre|..|pre| + Min(MAX_PREFIX, m.partialLen)]
    ensures InnerOk(m, pre, sub)
  {
    hide Inv, Wf, InRange, Get;
  }

  lemma OkParts<V>(n: Node<V>, pre: Key, path: Key)
    requires n.Inner? && InnerOk(n, pre, path)
    ensures pre <= path && |path| == |pre| + n.partialLen
    ensures n.partial == path[|pre|..|pre| + Min(MAX_PREFIX, n.partialLen)]
  {
    hide Inv, Wf, InRange, Get;
  }

  lemma CollapseOk<V>(child: Node<V>, pre: Key, path: Key, key: Byte, sub: Key, len: nat, partial: seq<Byte>)
    requires child.Inner? && InnerOk(child, path + [key], sub) && pre <= path && |path| == |pre| + len
    requires partial == path[|pre|..|pre| + Min(MAX_PREFIX, len)]
    ensures Collapse(len, partial, key, child).Inner? && InnerOk(Collapse(len, partial, key, child), pre, sub)
  {
    hide InnerOk, JoinPrefix;
    OkParts(child, path + [key], sub);
    JoinedPrefix(pre, path, key, sub, len, partial, child.partial);
    CollapsedOk(child, path + [key], Collapse(len, partial, key, child), pre, sub);
  }

  lemma CollapseInner<V>(n: Node<V>, pre: Key, path: Key, key: Byte, child: Node<V>)
    requires n.Inner? && pre <= path && |path| == |pre| + n.partialLen
    requires n.partial == path[|pre|..|pre| + Min(MAX_PREFIX, n.partialLen)]
    requires child.Inner? && Inv(child, path + [key])
    ensures Inv(Collapse(n.partialLen, n.partial, key, child), pre)
  {
    hide Inv, InnerOk, Path, Collapse;
    var sub := Path(child, path + [key]);
    InnerHolds(child, path + [key]);
    CollapseOk(child, pre, path, key, sub, n.partialLen, n.partial);
    PathIs(Collapse(n.partialLen, n.partial, key, child), pre, sub);
  }

  lemma CollapseKeeps<V>(n: Node<V>, pre: Key, path: Key, key: Byte, child: Node<V>)
    requires n.Inner? && pre <= path && |path| == |pre| + n.partialLen
    requires n.partial == path[|pre|..|pre| + Min(MAX_PREFIX, n.partialLen)]
    requires Inv(child, path + [key])
    ensures Inv(Collapse(n.partialLen, n.partial, key, child), pre)
  {
    if child.Inner? {
      hide Inv, Collapse;
      CollapseInner(n, pre, path, key, child);
    }
  }

  lemma CollapseHas<V>(partialLen: nat, partial: seq<Byte>, key: Byte, child: Node<V>, k: Key, v: V)
    ensures HasLeaf(Collapse(partialLen, partial, key, child), k, v) <==> HasLeaf(child, k, v)
  {
    if child.Inner? { SameBody(child, Collapse(partialLen, partial, key, child), k, v); }
  }

  // ----- Removing a leaf from its node -----

  /** The leaves of a node whose children at one byte were removed. */
  lemma HasRemoved<V>(n: Node<V>, m: Node<V>, c: Byte, k: Key, v: V)
    requires n.Inner? && m.Inner? && IsUpdate(n.body, m.body, c, None)
    ensures HasLeaf(m, k, v) <==> Elsewhere(n, c, k, v)
  {
    hide Get;
    if HasLeaf(m, k, v) {
      var e: Byte :| Get(m.body, e).Some? && HasLeaf(Get(m.body, e).value, k, v);
      assert Get(m.body, e) == Get(n.body, e);
    }
    if e: Byte :| e != c && Get(n.body, e).Some? && HasLeaf(Get(n.body, e).value, k, v) {
      assert Get(m.body, e) == Get(n.body, e);
    }
  }

  /** A node with one child holds what the child holds. */
  lemma HasOnly<V>(m: Node<V>, k: Key, v: V)
    requires m.Inner? && m.body.Node4? && |m.body.keys| == 1 && |m.body.kids| == 1
    ensures HasLeaf(m, k, v) <==> HasLeaf(m.body.kids[0], k, v)
    ensures Get(m.body, m.body.keys[0]) == Some(m.body.kids[0])
  {
    assert Get(m.body, m.body.keys[0]) == Some(m.body.kids[0]);
    if HasLeaf(m, k, v) {
      var e: Byte :| Get(m.body, e).Some? && HasLeaf(Get(m.body, e).value, k, v);
      assert e == m.body.keys[0];
    }
  }

  lemma RemoveChildHas<V>(n: Node<V>, c: Byte, k: Key, v: V)
    requires n.Inner? && Wf(n.body) && Get(n.body, c).Some?
    ensures HasLeaf(RemoveChild(n, c), k, v) <==>
            Elsewhere(n, c, k, v)
  {
    var m := Inner(n.partialLen, n.partial, Remove(n.body, c));
    RemoveKeeps(n.body, c);
    HasRemoved(n, m, c, k, v);
    hide Get, Wf, Remove, IsUpdate;
    if m.body.Node4? && |m.body.keys| == 1 && |m.body.kids| == 1 {
      HasOnly(m, k, v);
      CollapseHas(n.partialLen, n.partial, m.body.keys[0], m.body.kids[0], k, v);
    }
  }

  /** Removing a child keeps the tree sound, also when the node is merged away. */
  lemma RemoveChildInv<V>(n: Node<V>, pre: Key, c: Byte)
    requires n.Inner? && Inv(n, pre) && Wf(n.body) && Get(n.body, c).Some?
    ensures Inv(RemoveChild(n, c), pre)
  {
    var path, m := Path(n, pre), Inner(n.partialLen, n.partial, Remove(n.body, c));
    InvInner(n, pre);
    RemoveKeeps(n.body, c);
    OneChild(m.body);
    hide Get, Wf, InRange, Inv, Path, Remove, Size;
    if m.body.Node4? && |m.body.keys| == 1 && |m.body.kids| == 1 {
      var key, child := m.body.keys[0], m.body.kids[0];
      HasKid(m.body);
      assert key != c;
      CollapseKeeps(n, pre, path, key, child);
    } else {
      assert InnerOk(m, pre, path);
      PathIs(m, pre, path);
    }
  }

  lemma OneChild<T>(l: Layout<T>)
    requires Wf(l)
    ensures l.Node4? && Size(l) == 1 <==> l.Node4? && |l.keys| == 1 && |l.kids| == 1
  {
  }

  lemma HasKid<T>(l: Layout<T>)
    requires l.Node4? && |l.keys| == 1 && |l.kids| == 1
    ensures Get(l, l.keys[0]) == Some(l.kids[0])
  {
  }

  // ----- The main theorem -----

  /** What a deletion must do. */
  ghost predicate Deleted<V(!new)>(n: Node<V>, r: (Node<V>, Option<V>), pre: Key, k: Key) {
    && Inv(r.0, pre)
    && (forall j, w :: HasLeaf(r.0, j, w) <==> j != k && HasLeaf(n, j, w))
    && (r.1.Some? ==> HasLeaf(n, k, r.1.value))
    && (r.1.None? ==> forall w :: !HasLeaf(n, k, w))
  }

  /** The deletion reaches every stored key. */
  lemma KeyUnder<V>(n: Node<V>, pre: Key, k: Key, v: V, beyond: Beyond)
    requires n.Inner? && Inv(n, pre) && HasLeaf(n, k, v)
    ensures !PrefixFails(n, k, |pre|, beyond)
    ensures var c := KeyByte(k, |pre| + n.partialLen, beyond);
            Get(n.body, c).Some? && HasLeaf(Get(n.body, c).value, k, v)
  {
    hide Inv, HasLeaf, Path, PrefixFails, Wf, InRange, Get;
    LeafExtends(n, pre, k, v);
    InvInner(n, pre);
    PrefixHolds(n, pre, k, beyond);
  }

  lemma Unchanged<V(!new)>(n: Node<V>, pre: Key, k: Key)
    requires Inv(n, pre) && forall w :: !HasLeaf(n, k, w)
    ensures Deleted(n, (n, None), pre, k)
  {
    hide Inv, HasLeaf;
  }

  lemma LeafDeleted<V(!new)>(n: Node<V>, pre: Key, k: Key, beyond: Beyond)
    requires n.Inner? && Inv(n, pre) && Wf(n.body)
    requires var c := KeyByte(k, |pre| + n.partialLen, beyond);
             Get(n.body, c).Some? && Get(n.body, c).value.Leaf? && Get(n.body, c).value.key == k
    ensures var c := KeyByte(k, |pre| + n.partialLen, beyond);
            Deleted(n, (RemoveChild(n, c), Some(Get(n.body, c).value.value)), pre, k)
  {
    hide Inv, Wf, InRange, Get, Path, RemoveChild, Elsewhere;
    var c := KeyByte(k, |pre| + n.partialLen, beyond);
    var m, leaf := RemoveChild(n, c), Get(n.body, c).value;
    RemoveChildInv(n, pre, c);
    assert HasLeaf(n, k, leaf.value);
    forall j, w ensures HasLeaf(m, j, w) <==> j != k && HasLeaf(n, j, w) {
      RemoveChildHas(n, c, j, w);
      HasOrElsewhere(n, c, j, w);
      OthersDiffer(n, pre, c, k, leaf.value, j, w);
    }
  }

  /** A key under one child is under no other. */
  lemma OthersDiffer<V>(n: Node<V>, pre: Key, c: Byte, k: Key, v: V, j: Key, w: V)
    requires n.Inner? && Inv(n, pre) && Get(n.body, c).Some? && HasLeaf(Get(n.body, c).value, k, v)
    ensures Elsewhere(n, c, j, w) ==> j != k
  {
    InvInner(n, pre);
    hide Inv, Wf, InRange, Get, Path, HasLeaf;
    var path := Path(n, pre);
    if e: Byte :| e != c && Get(n.body, e).Some? && HasLeaf(Get(n.body, e).value, j, w) {
      LeafExtends(Get(n.body, e).value, path + [e], j, w);
      LeafExtends(Get(n.body, c).value, path + [c], k, v);
      assert j[|path|] == (path + [e])[|path|] == e;
      assert k[|path|] == (path + [c])[|path|] == c;
    }
  }

  /** The result of deleting below a child carries over to the node. */
  lemma BelowDeleted<V(!new)>(n: Node<V>, pre: Key, k: Key, beyond: Beyond, r: (Node<V>, Option<V>))
    requires n.Inner? && Inv(n, pre) && Wf(n.body)
    requires var c := KeyByte(k, |pre| + n.partialLen, beyond);
             Get(n.body, c).Some? && Deleted(Get(n.body, c).value, r, Path(n, pre) + [c], k)
    ensures var c := KeyByte(k, |pre| + n.partialLen, beyond);
            Deleted(n, (Inner(n.partialLen, n.partial, Replace(n.body, c, r.0)), r.1), pre, k)
  {
    var c := KeyByte(k, |pre| + n.partialLen, beyond);
    var child, m := Get(n.body, c).value, Inner(n.partialLen, n.partial, Replace(n.body, c, r.0));
    InvInner(n, pre);
    ReplaceKeeps(n.body, c, r.0);
    UpdatedInv(n, m, pre, c, r.0);
    hide Inv, Wf, InRange, Get, Path, Replace, HasLeaf, Elsewhere;
    forall w ensures HasLeaf(n, k, w) <==> HasLeaf(child, k, w) {
      HasOrElsewhere(n, c, k, w);
      if HasLeaf(n, k, w) { KeyUnder(n, pre, k, w, beyond); }
    }
    forall j, w ensures HasLeaf(m, j, w) <==> j != k && HasLeaf(n, j, w) {
      HasUpdated(n, m, c, r.0, j, w);
      HasOrElsewhere(n, c, j, w);
      if r.1.Some? { OthersDiffer(n, pre, c, k, r.1.value, j, w); }
    }
  }

  lemma DeleteStep<V>(n: Node<V>, k: Key, d: nat, beyond: Beyond, c: Byte)
    requires n.Inner? && Shaped(n) && c == KeyByte(k, d + n.partialLen, beyond)
    ensures Wf(n.body)
    ensures if PrefixFails(n, k, d, beyond) || Get(n.body, c).None? then Delete(n, k, d, beyond) == (n, None)
            else
              var child := Get(n.body, c).value;
              if child.Leaf? then
                Delete(n, k, d, beyond) == if child.key == k then (RemoveChild(n, c), Some(child.value)) else (n, None)
              else
                && Shaped(child)
                && var r := Delete(child, k, d + n.partialLen + 1, beyond);
                   Delete(n, k, d, beyond) == (Inner(n.partialLen, n.partial, Replace(n.body, c, r.0)), r.1)
  {
    hide PrefixFails, Replace, RemoveChild;
  }

  lemma NotUnder<V(!new)>(n: Node<V>, pre: Key, k: Key, beyond: Beyond)
    requires n.Inner? && Inv(n, pre)
    requires var c := KeyByte(k, |pre| + n.partialLen, beyond);
             PrefixFails(n, k, |pre|, beyond) || Get(n.body, c).None? || forall w :: !HasLeaf(Get(n.body, c).value, k, w)
    ensures forall w :: !HasLeaf(n, k, w)
  {
    hide Inv, HasLeaf, PrefixFails, Get;
    forall w ensures !HasLeaf(n, k, w) {
      if HasLeaf(n, k, w) { KeyUnder(n, pre, k, w, beyond); assert false; }
    }
  }

  /**
   Deletion keeps the structure invariant, removes the key and no other, and returns the value the
   key had; it does so whatever lies in memory past the end of the key.
   */
  lemma {:induction false} DeleteKeeps<V(!new)>(n: Node<V>, pre: Key, k: Key, beyond: Beyond)
    requires n.Inner? && Inv(n, pre) && Shaped(n)
    ensures Deleted(n, Delete(n, k, |pre|, beyond), pre, k)
    decreases Weight(n)
  {
    hide Inv, HasLeaf, Path, Wf, InRange, Get, Weight, Delete, PrefixFails, Deleted, Shaped, Replace, RemoveChild;
    var c := KeyByte(k, |pre| + n.partialLen, beyond);
    InvInner(n, pre);
    DeleteStep(n, k, |pre|, beyond, c);
    if PrefixFails(n, k, |pre|, beyond) || Get(n.body, c).None? {
      NotUnder(n, pre, k, beyond);
      Unchanged(n, pre, k);
    } else if Get(n.body, c).value.Inner? {
      WeightDrops(n, c);
      DeleteKeeps(Get(n.body, c).value, Path(n, pre) + [c], k, beyond);
      BelowDeleted(n, pre, k, beyond, Delete(Get(n.body, c).value, k, |pre| + n.partialLen + 1, beyond));
    } else if Get(n.body, c).value.key == k {
      LeafDeleted(n, pre, k, beyond);
    } else {
      LeafHas<V>(Get(n.body, c).value.key, Get(n.body, c).value.value);
      NotUnder(n, pre, k, beyond);
      Unchanged(n, pre, k);
    }
  }
}
