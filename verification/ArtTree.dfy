/**
 The adaptive radix tree of `art_spsc.c` as a map from byte strings to values.

 Inner nodes compress a run of `partialLen` bytes but store only the first ten of them, so
 that a search may skip bytes it has not compared; the whole key is compared at the leaf.
 */
module ArtTree {

  import opened ArtLayout

  type Key = seq<Byte>

  const MAX_PREFIX: nat := 10

  datatype Node<V> =
    | Leaf(key: Key, value: V)
    | Inner(partialLen: nat, partial: seq<Byte>, body: Layout<Node<V>>)

  function Min(a: nat, b: nat): nat { if a < b then a else b }

  /** The leaf with `k` and `v` is somewhere below. */
  ghost predicate HasLeaf<V>(n: Node<V>, k: Key, v: V)
    decreases n
  {
    match n
    case Leaf(key, value) => key == k && value == v
    case Inner(_, _, body) => exists c: Byte :: Get(body, c).Some? && HasLeaf(Get(body, c).value, k, v)
  }

  /** The key of the lowest leaf. */
  function MinKey<V>(n: Node<V>): Key
    decreases n
  {
    match n
    case Leaf(key, _) => key
    case Inner(_, _, body) => if First(body).Some? then MinKey(First(body).value) else []
  }

  /** A measure that drops from a node to its children. */
  ghost function Weight<V>(n: Node<V>): nat
    decreases n, 257
  {
    if n.Leaf? then 1 else 1 + WeightBelow(n, 256)
  }

  ghost function WeightBelow<V>(n: Node<V>, c: nat): nat
    requires n.Inner? && c <= 256
    decreases n, c
  {
    if c == 0 then 0
    else WeightBelow(n, c - 1) + (if Get(n.body, c - 1).Some? then Weight(Get(n.body, c - 1).value) else 0)
  }

  lemma {:induction false} WeightUpTo<V>(n: Node<V>, c: Byte, d: nat)
    requires n.Inner? && Get(n.body, c).Some? && c < d <= 256
    ensures Weight(Get(n.body, c).value) <= WeightBelow(n, d)
    decreases d
  {
    hide Get;
    if c < d - 1 { WeightUpTo(n, c, d - 1); }
  }

  lemma WeightDrops<V>(n: Node<V>, c: Byte)
    requires n.Inner? && Get(n.body, c).Some?
    ensures Weight(Get(n.body, c).value) < Weight(n)
  {
    WeightUpTo(n, c, 256);
  }

  // ----- The structure invariant -----

  /** All leaves extend `path` by the byte of their child, and the stored bytes are those of the path. */
  ghost predicate InnerOk<V>(n: Node<V>, pre: Key, path: Key)
    requires n.Inner?
    decreases n, 0
  {
    && Wf(n.body) && InRange(n.body)
    && pre <= path && |path| == |pre| + n.partialLen
    && n.partial == path[|pre|..|pre| + Min(MAX_PREFIX, n.partialLen)]
    && forall c: Byte :: Get(n.body, c).Some? ==> Inv(Get(n.body, c).value, path + [c])
  }

  /** The bytes that all leaves below an inner node share, taken from the lowest leaf. */
  function Path<V>(n: Node<V>, pre: Key): Key
    requires n.Inner?
  {
    var m := MinKey(n);
    m[..Min(|m|, |pre| + n.partialLen)]
  }

  /** Every leaf below `n` extends `pre`. */
  ghost predicate Inv<V>(n: Node<V>, pre: Key)
    decreases n, 1
  {
    match n
    case Leaf(key, _) => pre <= key
    case Inner(_, _, _) => InnerOk(n, pre, Path(n, pre))
  }

  lemma {:induction false} MinKeyExtends<V>(n: Node<V>, pre: Key)
    requires Inv(n, pre)
    ensures pre <= MinKey(n)
    decreases n
  {
    if n.Inner? {
      var c := FirstIs(n.body);
      MinKeyExtends(First(n.body).value, Path(n, pre) + [c]);
    }
  }

  /** The path of an inner node is determined by its children. */
  lemma PathIs<V>(n: Node<V>, pre: Key, path: Key)
    requires n.Inner? && InnerOk(n, pre, path)
    ensures Path(n, pre) == path && Inv(n, pre)
    ensures |MinKey(n)| > |path|
  {
    var c := FirstIs(n.body);
    var child := First(n.body).value;
    MinKeyExtends(child, path + [c]);
    assert MinKey(n) == MinKey(child);
  }

  lemma InvInner<V>(n: Node<V>, pre: Key)
    requires n.Inner? && Inv(n, pre)
    ensures Wf(n.body) && InRange(n.body)
    ensures var path := Path(n, pre);
            && pre <= path && |path| == |pre| + n.partialLen
            && n.partial == path[|pre|..|pre| + Min(MAX_PREFIX, n.partialLen)]
            && forall c: Byte :: Get(n.body, c).Some? ==> Inv(Get(n.body, c).value, path + [c])
  {
  }

  lemma InnerHolds<V>(n: Node<V>, pre: Key)
    requires n.Inner? && Inv(n, pre)
    ensures InnerOk(n, pre, Path(n, pre))
  {
    hide Path, InnerOk;
  }

  // ----- Where a key can be -----

  /** A stored key extends the path, and is under the child of its next byte and no other. */
  lemma {:induction false} LeafExtends<V>(n: Node<V>, pre: Key, k: Key, v: V)
    requires Inv(n, pre) && HasLeaf(n, k, v)
    ensures pre <= k
    ensures n.Inner? ==>
              var path := Path(n, pre);
              && path <= k && |path| < |k|
              && Get(n.body, k[|path|]).Some? && HasLeaf(Get(n.body, k[|path|]).value, k, v)
    decreases n
  {
    if n.Inner? {
      var path := Path(n, pre);
      var c: Byte :| Get(n.body, c).Some? && HasLeaf(Get(n.body, c).value, k, v);
      LeafExtends(Get(n.body, c).value, path + [c], k, v);
      assert (path + [c])[|path|] == c;
      assert k[..|path|] == (path + [c])[..|path|] == path;
    }
  }

  /** A key is stored with one value. */
  lemma {:induction false} OneValue<V>(n: Node<V>, pre: Key, k: Key, v: V, w: V)
    requires Inv(n, pre) && HasLeaf(n, k, v) && HasLeaf(n, k, w)
    ensures v == w
    decreases n
  {
    if n.Inner? {
      LeafExtends(n, pre, k, v);
      LeafExtends(n, pre, k, w);
      var path := Path(n, pre);
      OneValue(Get(n.body, k[|path|]).value, path + [k[|path|]], k, v, w);
    }
  }

  lemma {:induction false} MinKeyIsLeaf<V>(n: Node<V>, pre: Key) returns (v: V)
    requires Inv(n, pre)
    ensures HasLeaf(n, MinKey(n), v)
    decreases n
  {
    match n
    case Leaf(_, value) => v := value;
    case Inner(_, _, body) =>
      var c := FirstIs(body);
      v := MinKeyIsLeaf(First(body).value, Path(n, pre) + [c]);
      assert HasLeaf(Get(body, c).value, MinKey(n), v);
  }

  // ----- Searching -----

  /** What the source may read past the end of a key. */
  type Beyond = nat -> Byte

  function KeyByte(k: Key, i: nat, beyond: Beyond): Byte {
    if i < |k| then k[i] else beyond(i)
  }

  /** The first place from `i` to `n` at which the stored bytes and the key differ, or `n`. */
  function Matching(partial: seq<Byte>, k: Key, d: nat, beyond: Beyond, i: nat, n: nat): (r: nat)
    requires i <= n <= |partial|
    ensures i <= r <= n
    ensures r < n ==> partial[r] != KeyByte(k, d + r, beyond)
    ensures forall j :: i <= j < r ==> partial[j] == KeyByte(k, d + j, beyond)
    decreases n - i
  {
    if i == n || partial[i] != KeyByte(k, d + i, beyond) then i else Matching(partial, k, d, beyond, i + 1, n)
  }

  /** The stored prefix bytes shared with the key; past the end of the key the subtraction wraps and all are compared. */
  function CheckPrefix(partial: seq<Byte>, k: Key, d: nat, beyond: Beyond): nat {
    Matching(partial, k, d, beyond, 0, if d <= |k| then Min(|partial|, |k| - d) else |partial|)
  }

  predicate PrefixFails<V>(n: Node<V>, k: Key, d: nat, beyond: Beyond)
    requires n.Inner?
  {
    n.partialLen > 0 && CheckPrefix(n.partial, k, d, beyond) != Min(MAX_PREFIX, n.partialLen)
  }

  /** The byte that picks the child in a search; 0 past the end of the key. */
  function SearchByte(k: Key, d: nat): Byte { if d < |k| then k[d] else 0 }

  function Search<V>(n: Node<V>, k: Key, d: nat, beyond: Beyond): Option<V>
    decreases n
  {
    match n
    case Leaf(key, value) => if key == k then Some(value) else None
    case Inner(partialLen, _, body) =>
      if PrefixFails(n, k, d, beyond) then None
      else
        var c := SearchByte(k, d + partialLen);
        if Get(body, c).Some? then Search(Get(body, c).value, k, d + partialLen + 1, beyond) else None
  }

  lemma {:induction false} SearchSound<V>(n: Node<V>, k: Key, d: nat, beyond: Beyond)
    ensures Search(n, k, d, beyond).Some? ==> HasLeaf(n, k, Search(n, k, d, beyond).value)
    decreases n
  {
    if n.Inner? && Search(n, k, d, beyond).Some? {
      var c := SearchByte(k, d + n.partialLen);
      SearchSound(Get(n.body, c).value, k, d + n.partialLen + 1, beyond);
    }
  }

  /** The stored bytes of a node are found in every key that extends its path. */
  lemma PrefixHolds<V>(n: Node<V>, pre: Key, k: Key, beyond: Beyond)
    requires n.Inner? && Inv(n, pre) && Path(n, pre) <= k
    ensures !PrefixFails(n, k, |pre|, beyond)
  {
    var path := Path(n, pre);
    hide Inv, Wf, InRange, Get;
    assert |n.partial| == Min(MAX_PREFIX, n.partialLen) <= |k| - |pre|;
    assert forall j :: 0 <= j < |n.partial| ==> n.partial[j] == path[|pre| + j] == k[|pre| + j];
  }

  lemma SearchStep<V>(n: Node<V>, k: Key, d: nat, beyond: Beyond, c: Byte)
    requires n.Inner? && !PrefixFails(n, k, d, beyond) && c == SearchByte(k, d + n.partialLen) && Get(n.body, c).Some?
    ensures Search(n, k, d, beyond) == Search(Get(n.body, c).value, k, d + n.partialLen + 1, beyond)
  {
  }

  /** A search for a stored key goes on in the child that holds it. */
  lemma SearchDescends<V>(n: Node<V>, pre: Key, k: Key, v: V, beyond: Beyond) returns (child: Node<V>, path: Key)
    requires n.Inner? && Inv(n, pre) && HasLeaf(n, k, v)
    ensures Inv(child, path) && HasLeaf(child, k, v) && Weight(child) < Weight(n)
    ensures Search(n, k, |pre|, beyond) == Search(child, k, |path|, beyond)
  {
    hide Inv, HasLeaf, Path, PrefixFails, Wf, InRange, Get, Weight, Search, InnerOk;
    LeafExtends(n, pre, k, v);
    PrefixHolds(n, pre, k, beyond);
    var c := k[|Path(n, pre)|];
    WeightDrops(n, c);
    child, path := Get(n.body, c).value, Path(n, pre) + [c];
    ChildHolds(n, pre, c);
    SearchStep(n, k, |pre|, beyond, c);
  }

  lemma ChildHolds<V>(n: Node<V>, pre: Key, c: Byte)
    requires n.Inner? && Inv(n, pre) && Get(n.body, c).Some?
    ensures |Path(n, pre)| == |pre| + n.partialLen && Inv(Get(n.body, c).value, Path(n, pre) + [c])
  {
    InvInner(n, pre);
  }

  lemma {:induction false} SearchComplete<V>(n: Node<V>, pre: Key, k: Key, v: V, beyond: Beyond)
    requires Inv(n, pre) && HasLeaf(n, k, v)
    ensures Search(n, k, |pre|, beyond) == Some(v)
    decreases Weight(n)
  {
    if n.Inner? {
      hide Inv, HasLeaf, Weight, Search;
      var child, path := SearchDescends(n, pre, k, v, beyond);
      SearchComplete(child, path, k, v, beyond);
    }
  }

  /** A search finds exactly the stored value, whatever lies beyond the key. */
  lemma SearchIsLeaf<V>(n: Node<V>, pre: Key, k: Key, v: V, beyond: Beyond)
    requires Inv(n, pre)
    ensures Search(n, k, |pre|, beyond) == Some(v) <==> HasLeaf(n, k, v)
  {
    SearchSound(n, k, |pre|, beyond);
    if HasLeaf(n, k, v) { SearchComplete(n, pre, k, v, beyond); }
  }
}
