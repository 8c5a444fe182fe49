/**
 Insertion into the adaptive radix tree: splitting a leaf, splitting a compressed prefix,
 adding a child, or descending.
 */
module ArtInsert {

  import opened ArtLayout
  import opened ArtTree

  // ----- The operation -----

  /** The first place from `i` on at which two keys differ or one of them ends. */
  function CommonFrom(a: Key, b: Key, i: nat): (r: nat)
    ensures i <= r
    ensures i <= Min(|a|, |b|) ==> r <= Min(|a|, |b|)
    ensures r < Min(|a|, |b|) ==> a[r] != b[r]
    ensures forall j :: i <= j < r ==> j < Min(|a|, |b|) && a[j] == b[j]
    decreases Min(|a|, |b|) - i
  {
    if i >= Min(|a|, |b|) || a[i] != b[i] then i else CommonFrom(a, b, i + 1)
  }

  function Take(s: Key, i: nat): Key { s[..Min(i, |s|)] }

  function Drop(s: Key, i: nat): Key { s[Min(i, |s|)..] }

  /** A new node with two children. */
  function Two<T>(c: Byte, x: T, d: Byte, y: T): Layout<T> { Add4([c], [x], d, y) }

  /** How far the key follows the compressed prefix: the stored bytes first, then the lowest leaf. */
  function Mismatch(partialLen: nat, partial: seq<Byte>, lowest: Key, k: Key, d: nat, beyond: Beyond): nat {
    var stored := CheckPrefix(partial, k, d, beyond);
    if partialLen > MAX_PREFIX && d <= |k| && stored == Min(|partial|, |k| - d) then CommonFrom(lowest, k, d + stored) - d
    else stored
  }

  function PrefixMismatch<V>(n: Node<V>, k: Key, d: nat, beyond: Beyond): nat
    requires n.Inner?
  {
    Mismatch(n.partialLen, n.partial, MinKey(n), k, d, beyond)
  }

  const LEAF_PADDING: nat := 4

  /** A byte of the copy of a key in its leaf; the leaf is allocated zeroed, a few bytes longer than the key. */
  function LeafByte(k: Key, i: nat, beyond: Beyond): Byte {
    if i < |k| then k[i] else if i < |k| + LEAF_PADDING then 0 else beyond(i)
  }

  function SplitLeaf<V>(l: Node<V>, k: Key, v: V, d: nat, beyond: Beyond): Node<V>
    requires l.Leaf?
  {
    var common := CommonFrom(l.key, k, d);
    Inner(common - d, Take(Drop(k, d), Min(MAX_PREFIX, common - d)),
          Two(LeafByte(l.key, common, beyond), l, LeafByte(k, common, beyond), Leaf(k, v)))
  }

  /** The old node below the split, without the bytes up to and including the one it branches on. */
  function Shortened<V>(n: Node<V>, d: nat, diff: nat): Node<V>
    requires n.Inner? && diff < n.partialLen
  {
    var len := n.partialLen - (diff + 1);
    if n.partialLen <= MAX_PREFIX then Inner(len, Drop(n.partial, diff + 1), n.body)
    else Inner(len, Take(Drop(MinKey(n), d + diff + 1), Min(MAX_PREFIX, len)), n.body)
  }

  /** The byte the old node branches on. */
  function SplitByte<V>(n: Node<V>, d: nat, diff: nat, beyond: Beyond): Byte
    requires n.Inner?
  {
    if n.partialLen <= MAX_PREFIX then KeyByte(n.partial, diff, beyond) else KeyByte(MinKey(n), d + diff, beyond)
  }

  function SplitPrefix<V>(n: Node<V>, k: Key, v: V, d: nat, diff: nat, beyond: Beyond): Node<V>
    requires n.Inner? && diff < n.partialLen
  {
    Inner(diff, Take(n.partial, Min(MAX_PREFIX, diff)),
          Two(SplitByte(n, d, diff, beyond), Shortened(n, d, diff), KeyByte(k, d + diff, beyond), Leaf(k, v)))
  }

  /** Every node has a well-formed layout. */
  ghost predicate Shaped<V>(n: Node<V>)
    decreases n
  {
    n.Inner? ==> Wf(n.body) && forall c: Byte :: Get(n.body, c).Some? ==> Shaped(Get(n.body, c).value)
  }

  function Insert<V>(n: Node<V>, k: Key, v: V, d: nat, replace: bool, beyond: Beyond): (Node<V>, Option<V>)
    requires Shaped(n)
    decreases n
  {
    match n
    case Leaf(key, value) =>
      if key == k then (if replace then Leaf(key, v) else n, Some(value))
      else (SplitLeaf(n, k, v, d, beyond), None)
    case Inner(partialLen, partial, body) =>
      var diff := PrefixMismatch(n, k, d, beyond);
      if partialLen > 0 && diff < partialLen then (SplitPrefix(n, k, v, d, diff, beyond), None)
      else
        var c := KeyByte(k, d + partialLen, beyond);
        if Get(body, c).Some? then
          var (child, found) := Insert(Get(body, c).value, k, v, d + partialLen + 1, replace, beyond);
          (Inner(partialLen, partial, Replace(body, c, child)), found)
        else
          (Inner(partialLen, partial, Add(body, c, Leaf(k, v))), None)
  }

  // ----- What may be inserted -----

  /** Neither key is a prefix of the other. */
  predicate Apart(a: Key, b: Key) { !(a <= b) && !(b <= a) }

  /** The key is stored already, or is neither a prefix nor an extension of a stored key. */
  ghost predicate Fits<V(!new)>(n: Node<V>, k: Key) {
    forall j, w :: HasLeaf(n, j, w) ==> j == k || Apart(j, k)
  }

  /** The value under `k` after an insertion that found `found`. */
  function NewValue<V>(found: Option<V>, v: V, replace: bool): V {
    if found.Some? && !replace then found.value else v
  }

  /** `m` holds what `n` holds, except that `k` leads to `v`. */
  ghost predicate Stores<V(!new)>(n: Node<V>, m: Node<V>, k: Key, v: V) {
    && HasLeaf(m, k, v)
    && (forall j, w :: j != k ==> (HasLeaf(m, j, w) <==> HasLeaf(n, j, w)))
  }

  lemma {:induction false} InvShaped<V>(n: Node<V>, pre: Key)
    requires Inv(n, pre)
    ensures Shaped(n)
    decreases n
  {
    if n.Inner? {
      forall c: Byte | Get(n.body, c).Some? ensures Shaped(Get(n.body, c).value) {
        InvShaped(Get(n.body, c).value, Path(n, pre) + [c]);
      }
    }
  }

  // ----- Two children -----

  lemma TwoIs<T>(c: Byte, x: T, d: Byte, y: T)
    requires c != d
    ensures var l := Two(c, x, d, y);
            && Wf(l) && InRange(l) && Get(l, c) == Some(x) && Get(l, d) == Some(y)
            && forall e: Byte :: e != c && e != d ==> Get(l, e).None?
  {
    var l := Node4([c], [x]);
    assert FindKey([c], d) == 1;
    SmallAdd([c], [x], d, y);
    forall e: Byte | e != d ensures Get(Two(c, x, d, y), e) == GetSmall([c], [x], e) {}
    assert forall e: Byte :: e != c ==> FindKey([c], e) == 1;
  }

  /** The first child is found when the two bytes are equal. */
  lemma TwoGet<T>(c: Byte, x: T, d: Byte, y: T, e: Byte)
    ensures Get(Two(c, x, d, y), e) == if e == c then Some(x) else if e == d then Some(y) else None
  {
    if c != d {
      TwoIs(c, x, d, y);
    } else {
      assert InsertPlace([c], d) == 1;
      assert Two(c, x, d, y) == Node4([c, d], [x, y]);
    }
  }

  lemma HasTwo<V>(n: Node<V>, c: Byte, x: Node<V>, d: Byte, y: Node<V>, k: Key, v: V)
    requires n.Inner? && n.body == Two(c, x, d, y) && c != d
    ensures HasLeaf(n, k, v) <==> HasLeaf(x, k, v) || HasLeaf(y, k, v)
  {
    TwoIs(c, x, d, y);
    hide Two, Get, Wf, InRange;
    if HasLeaf(n, k, v) {
      var e: Byte :| Get(n.body, e).Some? && HasLeaf(Get(n.body, e).value, k, v);
      assert e == c || e == d;
    }
    if HasLeaf(x, k, v) { assert Get(n.body, c).Some? && HasLeaf(Get(n.body, c).value, k, v); }
    if HasLeaf(y, k, v) { assert Get(n.body, d).Some? && HasLeaf(Get(n.body, d).value, k, v); }
  }

  /** A new node over two children is sound when both extend its path by their bytes. */
  lemma TwoInv<V>(n: Node<V>, pre: Key, path: Key, c: Byte, x: Node<V>, d: Byte, y: Node<V>)
    requires n.Inner? && n.body == Two(c, x, d, y) && c != d
    requires pre <= path && |path| == |pre| + n.partialLen
    requires n.partial == path[|pre|..|pre| + Min(MAX_PREFIX, n.partialLen)]
    requires Inv(x, path + [c]) && Inv(y, path + [d])
    ensures Inv(n, pre)
  {
    hide Two, Get, Wf, InRange, Inv;
    TwoIs(c, x, d, y);
    assert InnerOk(n, pre, path);
    PathIs(n, pre, path);
  }

  // ----- Splitting a leaf -----

  /** Two keys agree on their first `e` bytes. */
  predicate AgreeTo(a: Key, b: Key, e: nat) {
    e <= |a| && e <= |b| && forall i :: 0 <= i < e ==> a[i] == b[i]
  }

  lemma AgreeIsPrefix(a: Key, b: Key, e: nat)
    requires e <= |a|
    ensures AgreeTo(a, b, e) <==> a[..e] <= b
  {
    assert forall i :: 0 <= i < e ==> a[..e][i] == a[i];
  }

  lemma ApartDiffer(a: Key, b: Key, d: nat)
    requires Apart(a, b) && AgreeTo(a, b, d)
    ensures var i := CommonFrom(a, b, d); d <= i < Min(|a|, |b|) && a[i] != b[i] && AgreeTo(a, b, i)
  {
    var i := CommonFrom(a, b, d);
    assert AgreeTo(a, b, i);
    assert i == |a| ==> a <= b;
    assert i == |b| ==> b <= a;
  }

  /** One more byte of a key after an agreed path. */
  lemma OneMore(a: Key, b: Key, i: nat)
    requires AgreeTo(a, b, i) && i < |b|
    ensures a[..i] + [b[i]] <= b
  {
    AgreeIsPrefix(a, b, i);
    assert a[..i] == b[..i];
    assert b[..i + 1] == b[..i] + [b[i]];
  }

  /** The stored bytes of the node over a split leaf. */
  lemma SplitPartial(k: Key, d: nat, i: nat)
    requires d <= i <= |k|
    ensures k[..d] <= k[..i]
    ensures Take(Drop(k, d), Min(MAX_PREFIX, i - d)) == k[..i][d..d + Min(MAX_PREFIX, i - d)]
  {
  }

  lemma SplitLeafKeeps<V(!new)>(l: Node<V>, k: Key, v: V, d: nat, beyond: Beyond)
    requires l.Leaf? && d <= |k| && Inv(l, k[..d]) && Apart(l.key, k)
    ensures Inv(SplitLeaf(l, k, v, d, beyond), k[..d])
    ensures Stores(l, SplitLeaf(l, k, v, d, beyond), k, v)
  {
    hide CommonFrom, Two, AgreeTo, Apart;
    var n := SplitLeaf(l, k, v, d, beyond);
    AgreeIsPrefix(k, l.key, d);
    AgreeSwap(k, l.key, d);
    ApartDiffer(l.key, k, d);
    var i := CommonFrom(l.key, k, d);
    AgreeSwap(l.key, k, i);
    OneMore(k, l.key, i);
    OneMore(k, k, i);
    SplitPartial(k, d, i);
    TwoInv(n, k[..d], k[..i], l.key[i], l, k[i], Leaf(k, v));
    forall j, w ensures HasLeaf(n, j, w) <==> HasLeaf(l, j, w) || HasLeaf(Leaf(k, v), j, w) {
      HasTwo(n, l.key[i], l, k[i], Leaf(k, v), j, w);
    }
  }

  lemma AgreeSwap(a: Key, b: Key, e: nat)
    requires AgreeTo(a, b, e)
    ensures AgreeTo(b, a, e) && AgreeTo(b, b, e) && e <= |a| && e <= |b|
  {
  }

  // ----- Splitting a prefix -----

  /** The stored bytes compared so far are those of the path. */
  lemma StoredAgree(path: Key, partial: seq<Byte>, k: Key, d: nat, beyond: Beyond)
    requires d + |partial| <= |path| && partial == path[d..d + |partial|] && AgreeTo(k, path, d)
    ensures var stored := CheckPrefix(partial, k, d, beyond);
            && stored <= Min(|partial|, |k| - d) && AgreeTo(k, path, d + stored)
            && (stored < Min(|partial|, |k| - d) ==> k[d + stored] != path[d + stored])
  {
    hide Matching;
    var stored := CheckPrefix(partial, k, d, beyond);
    forall i | 0 <= i < d + stored ensures k[i] == path[i] {
      if i >= d { assert partial[i - d] == KeyByte(k, d + (i - d), beyond); }
    }
  }

  /** What the mismatch position says about the key and the path. */
  lemma MismatchIs(path: Key, partialLen: nat, partial: seq<Byte>, lowest: Key, k: Key, d: nat, beyond: Beyond)
    requires |path| == d + partialLen && path <= lowest && |partial| == Min(MAX_PREFIX, partialLen)
    requires partial == path[d..d + |partial|] && AgreeTo(k, path, d)
    ensures var diff := Mismatch(partialLen, partial, lowest, k, d, beyond);
            if diff >= partialLen then AgreeTo(k, path, |path|)
            else AgreeTo(k, path, d + diff) && (d + diff < |k| ==> k[d + diff] != path[d + diff])
  {
    StoredAgree(path, partial, k, d, beyond);
    hide CheckPrefix, CommonFrom;
    var stored, diff := CheckPrefix(partial, k, d, beyond), Mismatch(partialLen, partial, lowest, k, d, beyond);
    if partialLen > MAX_PREFIX && stored == Min(|partial|, |k| - d) {
      forall i | 0 <= i < Min(d + diff, |path|) ensures i < |k| && k[i] == path[i] {
        if i >= d + stored { assert lowest[i] == k[i]; }
      }
    }
  }

  lemma PathOfLowest<V>(n: Node<V>, pre: Key)
    requires n.Inner?
    ensures Path(n, pre) <= MinKey(n)
  {
    hide MinKey;
  }

  lemma NodeMismatch<V>(n: Node<V>, k: Key, d: nat, beyond: Beyond)
    requires n.Inner? && d <= |k| && Inv(n, k[..d])
    ensures var path, diff := Path(n, k[..d]), PrefixMismatch(n, k, d, beyond);
            && |path| == d + n.partialLen
            && if diff >= n.partialLen then AgreeTo(k, path, |path|)
               else AgreeTo(k, path, d + diff) && (d + diff < |k| ==> k[d + diff] != path[d + diff])
  {
    hide Inv, Path, MinKey, Wf, InRange, Get, Mismatch;
    var path := Path(n, k[..d]);
    InvInner(n, k[..d]);
    PathOfLowest(n, k[..d]);
    AgreeIsPrefix(k, path, d);
    MismatchIs(path, n.partialLen, n.partial, MinKey(n), k, d, beyond);
  }

  /** The lowest leaf is a stored key, so the inserted key ends inside no path. */
  lemma KeyGoesOn<V(!new)>(n: Node<V>, pre: Key, k: Key, e: nat)
    requires n.Inner? && Inv(n, pre) && Fits(n, k) && e <= |Path(n, pre)| && AgreeTo(k, Path(n, pre), e)
    ensures e < |k|
  {
    var path, m := Path(n, pre), MinKey(n);
    InvInner(n, pre);
    PathIs(n, pre, path);
    var v := MinKeyIsLeaf(n, pre);
    hide Inv, Wf, InRange, Get, MinKey, HasLeaf;
    assert path <= m;
    assert e == |k| ==> k <= m;
  }

  /** The bytes of the shortened node are those of the rest of the path. */
  lemma ShortenedPartial<V>(n: Node<V>, pre: Key, diff: nat)
    requires n.Inner? && Inv(n, pre) && diff < n.partialLen
    ensures var path, len := Path(n, pre), n.partialLen - (diff + 1);
            && |path| == |pre| + n.partialLen
            && Shortened(n, |pre|, diff) ==
               Inner(len, path[|pre| + diff + 1..|pre| + diff + 1 + Min(MAX_PREFIX, len)], n.body)
  {
    var path, m, len, at := Path(n, pre), MinKey(n), n.partialLen - (diff + 1), |pre| + diff + 1;
    InvInner(n, pre);
    PathIs(n, pre, path);
    hide Inv, Wf, InRange, Get, MinKey;
    if n.partialLen <= MAX_PREFIX {
      assert n.partial[diff + 1..] == path[at..at + len];
    } else {
      SliceOfPrefix(path, m, at, at + Min(MAX_PREFIX, len));
    }
  }

  lemma SliceOfPrefix(path: Key, m: Key, a: nat, b: nat)
    requires path <= m && a <= b <= |path|
    ensures Take(Drop(m, a), b - a) == path[a..b]
  {
  }

  lemma ShortenedKeeps<V>(n: Node<V>, pre: Key, diff: nat)
    requires n.Inner? && Inv(n, pre) && diff < n.partialLen
    ensures |Path(n, pre)| == |pre| + n.partialLen
    ensures Inv(Shortened(n, |pre|, diff), Path(n, pre)[..|pre| + diff + 1])
  {
    var path := Path(n, pre);
    InvInner(n, pre);
    ShortenedPartial(n, pre, diff);
    hide Inv, Wf, InRange, Get, Path, Shortened;
    var short := Shortened(n, |pre|, diff);
    assert InnerOk(short, path[..|pre| + diff + 1], path);
    PathIs(short, path[..|pre| + diff + 1], path);
  }

  lemma SplitByteIs<V>(n: Node<V>, pre: Key, diff: nat, beyond: Beyond)
    requires n.Inner? && Inv(n, pre) && diff < n.partialLen
    ensures |Path(n, pre)| == |pre| + n.partialLen && SplitByte(n, |pre|, diff, beyond) == Path(n, pre)[|pre| + diff]
  {
    InvInner(n, pre);
    PathIs(n, pre, Path(n, pre));
    hide Inv, Wf, InRange, Get;
  }

  lemma SameBody<V>(n: Node<V>, m: Node<V>, k: Key, v: V)
    requires n.Inner? && m.Inner? && n.body == m.body
    ensures HasLeaf(n, k, v) <==> HasLeaf(m, k, v)
  {
    hide Get;
  }

  /** A key that leaves the path early is not stored. */
  lemma NotStored<V(!new)>(n: Node<V>, pre: Key, k: Key)
    requires n.Inner? && Inv(n, pre) && !(Path(n, pre) <= k)
    ensures forall w :: !HasLeaf(n, k, w)
  {
    forall w ensures !HasLeaf(n, k, w) {
      if HasLeaf(n, k, w) { LeafExtends(n, pre, k, w); assert false; }
    }
  }

  lemma SplitFacts<V(!new)>(n: Node<V>, k: Key, d: nat, beyond: Beyond)
    requires n.Inner? && d <= |k| && Inv(n, k[..d]) && Fits(n, k) && PrefixMismatch(n, k, d, beyond) < n.partialLen
    ensures var path, e := Path(n, k[..d]), d + PrefixMismatch(n, k, d, beyond);
            && |path| == d + n.partialLen && e < |k| && k[..e] == path[..e] && k[e] != path[e]
            && n.partial == path[d..d + Min(MAX_PREFIX, n.partialLen)]
            && forall w :: !HasLeaf(n, k, w)
  {
    var path, e := Path(n, k[..d]), d + PrefixMismatch(n, k, d, beyond);
    NodeMismatch(n, k, d, beyond);
    InvInner(n, k[..d]);
    hide Inv, Wf, InRange, Get, Path, HasLeaf, PrefixMismatch;
    KeyGoesOn(n, k[..d], k, e);
    AgreeIsPrefix(k, path, e);
    NotStored(n, k[..d], k);
  }

  lemma SplitPrefixKeeps<V(!new)>(n: Node<V>, k: Key, v: V, d: nat, beyond: Beyond)
    requires n.Inner? && d <= |k| && Inv(n, k[..d]) && Fits(n, k) && PrefixMismatch(n, k, d, beyond) < n.partialLen
    ensures var n' := SplitPrefix(n, k, v, d, PrefixMismatch(n, k, d, beyond), beyond);
            Inv(n', k[..d]) && Stores(n, n', k, v) && forall w :: !HasLeaf(n, k, w)
  {
    hide Inv, Wf, InRange, Get, Path, HasLeaf, PrefixMismatch, SplitByte, Shortened, Fits, Two;
    var pre, diff := k[..d], PrefixMismatch(n, k, d, beyond);
    var path, n' := Path(n, pre), SplitPrefix(n, k, v, d, diff, beyond);
    SplitFacts(n, k, d, beyond);
    ShortenedKeeps(n, pre, diff);
    SplitByteIs(n, pre, diff, beyond);
    var short, leaf := Shortened(n, d, diff), Leaf(k, v);
    SplitPrefixInv(n, n', pre, k, path, diff, short, leaf);
    forall j, w ensures HasLeaf(n', j, w) <==> HasLeaf(n, j, w) || HasLeaf(leaf, j, w) {
      HasTwo(n', path[d + diff], short, k[d + diff], leaf, j, w);
      ShortenedBody(n, d, diff);
      SameBody(n, short, j, w);
    }
    LeafHas(k, v);
  }

  lemma ShortenedBody<V>(n: Node<V>, d: nat, diff: nat)
    requires n.Inner? && diff < n.partialLen
    ensures Shortened(n, d, diff).Inner? && Shortened(n, d, diff).body == n.body
  {
  }

  lemma LeafHas<V(!new)>(k: Key, v: V)
    ensures forall j, w :: HasLeaf(Leaf(k, v), j, w) <==> j == k && w == v
  {
  }

  lemma SliceOfSlice(path: Key, a: nat, m: nat, n: nat)
    requires a + m <= |path| && n <= m
    ensures Take(path[a..a + m], n) == path[a..a + n]
  {
  }

  lemma SplitPrefixInv<V>(n: Node<V>, n': Node<V>, pre: Key, k: Key, path: Key, diff: nat, short: Node<V>, leaf: Node<V>)
    requires n.Inner? && n'.Inner? && diff < n.partialLen && |path| == |pre| + n.partialLen
    requires n.partial == path[|pre|..|pre| + Min(MAX_PREFIX, n.partialLen)]
    requires |pre| + diff < |k| && pre <= k && k[..|pre| + diff] == path[..|pre| + diff] && k[|pre| + diff] != path[|pre| + diff]
    requires n' == Inner(diff, Take(n.partial, Min(MAX_PREFIX, diff)), Two(path[|pre| + diff], short, k[|pre| + diff], leaf))
    requires Inv(short, path[..|pre| + diff + 1]) && leaf.Leaf? && leaf.key == k
    ensures Inv(n', pre)
  {
    var e := |pre| + diff;
    assert path[..e + 1] == k[..e] + [path[e]];
    assert k[..e + 1] == k[..e] + [k[e]];
    hide Two, Get, Wf, InRange;
    assert Inv(leaf, k[..e] + [k[e]]);
    SliceOfSlice(path, |pre|, Min(MAX_PREFIX, n.partialLen), Min(MAX_PREFIX, diff));
    assert n'.partial == k[..e][|pre|..|pre| + Min(MAX_PREFIX, diff)];
    TwoInv(n', pre, k[..e], path[e], short, k[e], leaf);
  }

  // ----- Adding a leaf, or descending -----

  /** A leaf is under another child than that of `c`. */
  ghost predicate Elsewhere<V>(n: Node<V>, c: Byte, k: Key, v: V)
    requires n.Inner?
  {
    exists e: Byte :: e != c && Get(n.body, e).Some? && HasLeaf(Get(n.body, e).value, k, v)
  }

  lemma HasOrElsewhere<V>(n: Node<V>, c: Byte, k: Key, v: V)
    requires n.Inner?
    ensures HasLeaf(n, k, v) <==>
            (Get(n.body, c).Some? && HasLeaf(Get(n.body, c).value, k, v)) || Elsewhere(n, c, k, v)
  {
    hide Get;
  }

  /** A layout that changes at one byte: the leaves are those of the new child and of the other children. */
  lemma HasUpdated<V>(n: Node<V>, m: Node<V>, c: Byte, x: Node<V>, k: Key, v: V)
    requires n.Inner? && m.Inner? && IsUpdate(n.body, m.body, c, Some(x))
    ensures HasLeaf(m, k, v) <==>
            HasLeaf(x, k, v) || Elsewhere(n, c, k, v)
  {
    hide Get;
    if HasLeaf(m, k, v) {
      var e: Byte :| Get(m.body, e).Some? && HasLeaf(Get(m.body, e).value, k, v);
      assert e != c ==> Get(m.body, e) == Get(n.body, e);
    }
    if HasLeaf(x, k, v) { assert Get(m.body, c).Some?; }
    if e: Byte :| e != c && Get(n.body, e).Some? && HasLeaf(Get(n.body, e).value, k, v) {
      assert Get(m.body, e) == Get(n.body, e);
    }
  }

  lemma UpdatedInv<V>(n: Node<V>, m: Node<V>, pre: Key, c: Byte, x: Node<V>)
    requires n.Inner? && Inv(n, pre) && m.Inner? && m.partialLen == n.partialLen && m.partial == n.partial
    requires IsUpdate(n.body, m.body, c, Some(x)) && Wf(m.body) && InRange(m.body)
    requires Inv(x, Path(n, pre) + [c])
    ensures Inv(m, pre) && Path(m, pre) == Path(n, pre)
  {
    var path := Path(n, pre);
    InvInner(n, pre);
    hide Get, Wf, InRange, Inv, Path;
    assert InnerOk(m, pre, path);
    PathIs(m, pre, path);
  }

  lemma AddLeafKeeps<V(!new)>(n: Node<V>, pre: Key, k: Key, v: V)
    requires n.Inner? && Inv(n, pre) && |Path(n, pre)| < |k| && AgreeTo(k, Path(n, pre), |Path(n, pre)|)
    requires Wf(n.body) && Get(n.body, k[|Path(n, pre)|]).None?
    ensures var m := Inner(n.partialLen, n.partial, Add(n.body, k[|Path(n, pre)|], Leaf(k, v)));
            Inv(m, pre) && Stores(n, m, k, v) && forall w :: !HasLeaf(n, k, w)
  {
    var path, leaf := Path(n, pre), Leaf(k, v);
    var c := k[|path|];
    var m := Inner(n.partialLen, n.partial, Add(n.body, c, leaf));
    InvInner(n, pre);
    AddKeeps(n.body, c, leaf);
    OneMore(path, k, |path|);
    assert path[..|path|] == path;
    assert Inv(leaf, path + [c]);
    UpdatedInv(n, m, pre, c, leaf);
    forall w ensures !HasLeaf(n, k, w) {
      if HasLeaf(n, k, w) { LeafExtends(n, pre, k, w); assert false; }
    }
    hide Get, Wf, InRange, Inv, Path, Add, AgreeTo;
    forall j, w ensures HasLeaf(m, j, w) <==> HasLeaf(n, j, w) || HasLeaf(leaf, j, w) {
      HasUpdated(n, m, c, leaf, j, w);
    }
  }

  lemma InsertDescends<V>(n: Node<V>, k: Key, v: V, d: nat, replace: bool, beyond: Beyond, c: Byte)
    requires Shaped(n) && n.Inner? && c == KeyByte(k, d + n.partialLen, beyond)
    requires n.partialLen > 0 ==> PrefixMismatch(n, k, d, beyond) >= n.partialLen
    ensures Wf(n.body)
    ensures Get(n.body, c).Some? ==>
              Shaped(Get(n.body, c).value) &&
              var (child, found) := Insert(Get(n.body, c).value, k, v, d + n.partialLen + 1, replace, beyond);
              Insert(n, k, v, d, replace, beyond) == (Inner(n.partialLen, n.partial, Replace(n.body, c, child)), found)
    ensures Get(n.body, c).None? ==>
              Insert(n, k, v, d, replace, beyond) == (Inner(n.partialLen, n.partial, Add(n.body, c, Leaf(k, v))), None)
  {
    hide PrefixMismatch, KeyByte, Replace, Add, Get, Wf, SplitPrefix;
  }

  lemma InsertAtLeaf<V>(l: Node<V>, k: Key, v: V, d: nat, replace: bool, beyond: Beyond)
    requires l.Leaf? && Shaped(l)
    ensures Insert(l, k, v, d, replace, beyond) ==
            if l.key == k then (if replace then Leaf(l.key, v) else l, Some(l.value)) else (SplitLeaf(l, k, v, d, beyond), None)
  {
    hide SplitLeaf;
  }

  lemma InsertSplits<V>(n: Node<V>, k: Key, v: V, d: nat, replace: bool, beyond: Beyond)
    requires n.Inner? && Shaped(n) && n.partialLen > 0 && PrefixMismatch(n, k, d, beyond) < n.partialLen
    ensures Insert(n, k, v, d, replace, beyond) == (SplitPrefix(n, k, v, d, PrefixMismatch(n, k, d, beyond), beyond), None)
  {
    hide SplitPrefix, PrefixMismatch;
  }

  /** What an insertion must do. */
  ghost predicate Inserted<V(!new)>(n: Node<V>, r: (Node<V>, Option<V>), pre: Key, k: Key, v: V, replace: bool) {
    && Inv(r.0, pre)
    && Stores(n, r.0, k, NewValue(r.1, v, replace))
    && (r.1.Some? ==> HasLeaf(n, k, r.1.value))
    && (r.1.None? ==> forall w :: !HasLeaf(n, k, w))
  }

  lemma ChildFits<V(!new)>(n: Node<V>, c: Byte, k: Key)
    requires n.Inner? && Fits(n, k) && Get(n.body, c).Some?
    ensures Fits(Get(n.body, c).value, k)
  {
    hide Get;
    forall j, w | HasLeaf(Get(n.body, c).value, j, w) ensures j == k || Apart(j, k) {
      assert HasLeaf(n, j, w);
    }
  }

  /** The result of inserting below a child carries over to the node. */
  lemma DescendKeeps<V(!new)>(n: Node<V>, pre: Key, k: Key, v: V, replace: bool, r: (Node<V>, Option<V>))
    requires n.Inner? && Inv(n, pre) && |Path(n, pre)| < |k| && AgreeTo(k, Path(n, pre), |Path(n, pre)|)
    requires Wf(n.body) && Get(n.body, k[|Path(n, pre)|]).Some?
    requires var path := Path(n, pre); var c := k[|path|]; Inserted(Get(n.body, c).value, r, path + [c], k, v, replace)
    ensures Inserted(n, (Inner(n.partialLen, n.partial, Replace(n.body, k[|Path(n, pre)|], r.0)), r.1), pre, k, v, replace)
  {
    var path := Path(n, pre);
    var c := k[|path|];
    var child, m := Get(n.body, c).value, Inner(n.partialLen, n.partial, Replace(n.body, c, r.0));
    InvInner(n, pre);
    ReplaceKeeps(n.body, c, r.0);
    UpdatedInv(n, m, pre, c, r.0);
    hide Get, Wf, InRange, Inv, Path, Replace, AgreeTo;
    forall j, w
      ensures HasLeaf(m, j, w) <==>
              HasLeaf(r.0, j, w) || Elsewhere(n, c, j, w)
    {
      HasUpdated(n, m, c, r.0, j, w);
    }
    forall w ensures HasLeaf(n, k, w) <==> HasLeaf(child, k, w) {
      if HasLeaf(n, k, w) { LeafExtends(n, pre, k, w); }
    }
    assert Stores(n, m, k, NewValue(r.1, v, replace));
  }

  /**
   Insertion keeps the structure invariant, stores the key, leaves every other key as it was,
   and returns the value the key had.
   */
  lemma {:induction false} InsertKeeps<V(!new)>(n: Node<V>, k: Key, v: V, d: nat, replace: bool, beyond: Beyond)
    requires d <= |k| && Inv(n, k[..d]) && Fits(n, k) && Shaped(n)
    ensures Inserted(n, Insert(n, k, v, d, replace, beyond), k[..d], k, v, replace)
    decreases Weight(n)
  {
    if n.Leaf? {
      if n.key != k {
        assert HasLeaf(n, n.key, n.value);
        SplitLeafKeeps(n, k, v, d, beyond);
      }
    } else if n.partialLen > 0 && PrefixMismatch(n, k, d, beyond) < n.partialLen {
      SplitPrefixKeeps(n, k, v, d, beyond);
    } else {
      InsertBelow(n, k, v, d, replace, beyond);
    }
  }

  lemma {:induction false} InsertBelow<V(!new)>(n: Node<V>, k: Key, v: V, d: nat, replace: bool, beyond: Beyond)
    requires d <= |k| && Inv(n, k[..d]) && Fits(n, k) && Shaped(n) && n.Inner?
    requires n.partialLen > 0 ==> PrefixMismatch(n, k, d, beyond) >= n.partialLen
    ensures Inserted(n, Insert(n, k, v, d, replace, beyond), k[..d], k, v, replace)
    decreases Weight(n), 0
  {
    hide Inv, HasLeaf, Path, Wf, InRange, Get, Weight, Insert, PrefixMismatch, Inserted, Fits, Shaped, Stores;
    var pre := k[..d];
    var path := Path(n, pre);
    InvInner(n, pre);
    NodeMismatch(n, k, d, beyond);
    AgreeIsPrefix(k, path, d);
    assert path == pre || n.partialLen > 0;
    KeyGoesOn(n, pre, k, |path|);
    var c := k[|path|];
    InsertDescends(n, k, v, d, replace, beyond, c);
    if Get(n.body, c).Some? {
      WeightDrops(n, c);
      ChildFits(n, c, k);
      assert path + [c] == k[..|path| + 1];
      InsertKeeps(Get(n.body, c).value, k, v, d + n.partialLen + 1, replace, beyond);
      DescendKeeps(n, pre, k, v, replace, Insert(Get(n.body, c).value, k, v, d + n.partialLen + 1, replace, beyond));
    } else {
      AddLeafKeeps(n, pre, k, v);
      AddedIs(n, Inner(n.partialLen, n.partial, Add(n.body, c, Leaf(k, v))), pre, k, v, replace);
    }
  }

  lemma AddedIs<V(!new)>(n: Node<V>, m: Node<V>, pre: Key, k: Key, v: V, replace: bool)
    requires Inv(m, pre) && Stores(n, m, k, v) && forall w :: !HasLeaf(n, k, w)
    ensures Inserted(n, (m, None), pre, k, v, replace)
  {
    hide Inv, HasLeaf;
  }

  // ----- Exactly which keys can be inserted -----

  /** Two keys that are stored together are apart. */
  lemma {:induction false} StoredApart<V>(n: Node<V>, pre: Key, j: Key, v: V, k: Key, w: V)
    requires Inv(n, pre) && HasLeaf(n, j, v) && HasLeaf(n, k, w) && j != k
    ensures Apart(j, k)
    decreases Weight(n)
  {
    hide Inv, HasLeaf, Get, Weight, Path;
    if n.Leaf? {
      LeafOnly(n, j, v);
      LeafOnly(n, k, w);
    } else {
      LeafExtends(n, pre, j, v);
      LeafExtends(n, pre, k, w);
      InvInner(n, pre);
      var e := |Path(n, pre)|;
      if j[e] == k[e] {
        WeightDrops(n, j[e]);
        StoredApart(Get(n.body, j[e]).value, Path(n, pre) + [j[e]], j, v, k, w);
      } else {
        DifferAt(j, k, e);
      }
    }
  }

  lemma DifferAt(j: Key, k: Key, e: nat)
    requires e < |j| && e < |k| && j[e] != k[e]
    ensures Apart(j, k)
  {
  }

  lemma LeafOnly<V>(n: Node<V>, k: Key, v: V)
    requires n.Leaf? && HasLeaf(n, k, v)
    ensures n.key == k && n.value == v
  {
  }

  /** A leaf is split soundly if and only if neither key is a prefix of the other. */
  lemma SplitLeafExactly<V(!new)>(l: Node<V>, k: Key, v: V, d: nat, beyond: Beyond)
    requires l.Leaf? && d <= |k| && Inv(l, k[..d]) && l.key != k
    ensures var n := SplitLeaf(l, k, v, d, beyond); Inv(n, k[..d]) && Stores(l, n, k, v) <==> Apart(l.key, k)
  {
    hide Inv, HasLeaf, SplitLeaf, Apart;
    var n := SplitLeaf(l, k, v, d, beyond);
    if Apart(l.key, k) {
      SplitLeafKeeps(l, k, v, d, beyond);
    } else if Inv(n, k[..d]) && Stores(l, n, k, v) {
      LeafHas(l.key, l.value);
      assert HasLeaf(n, l.key, l.value) && HasLeaf(n, k, v);
      StoredApart(n, k[..d], l.key, l.value, k, v);
      assert false;
    }
  }

  /** A prefix is split soundly if and only if the key fits the keys below. */
  lemma SplitPrefixExactly<V(!new)>(n: Node<V>, k: Key, v: V, d: nat, beyond: Beyond)
    requires n.Inner? && d <= |k| && Inv(n, k[..d]) && PrefixMismatch(n, k, d, beyond) < n.partialLen
    ensures var n' := SplitPrefix(n, k, v, d, PrefixMismatch(n, k, d, beyond), beyond);
            Inv(n', k[..d]) && Stores(n, n', k, v) <==> Fits(n, k)
  {
    hide Inv, HasLeaf, SplitPrefix, PrefixMismatch, Apart;
    var n' := SplitPrefix(n, k, v, d, PrefixMismatch(n, k, d, beyond), beyond);
    if Fits(n, k) {
      SplitPrefixKeeps(n, k, v, d, beyond);
    } else if Inv(n', k[..d]) && Stores(n, n', k, v) {
      var j, w :| HasLeaf(n, j, w) && j != k && !Apart(j, k);
      assert HasLeaf(n', j, w) && HasLeaf(n', k, v);
      StoredApart(n', k[..d], j, w, k, v);
      assert false;
    }
  }

  /**
   Insertion into a sound tree does what it must if and only if the key is present already or is
   neither a prefix nor an extension of a present key.
   */
  lemma InsertKeepsExactly<V(!new)>(n: Node<V>, k: Key, v: V, d: nat, replace: bool, beyond: Beyond)
    requires d <= |k| && Inv(n, k[..d]) && Shaped(n)
    ensures Inserted(n, Insert(n, k, v, d, replace, beyond), k[..d], k, v, replace) <==> Fits(n, k)
  {
    hide Inv, HasLeaf, Insert, Shaped, Apart;
    var r := Insert(n, k, v, d, replace, beyond);
    if Fits(n, k) {
      InsertKeeps(n, k, v, d, replace, beyond);
    } else if Inserted(n, r, k[..d], k, v, replace) {
      var j, w :| HasLeaf(n, j, w) && j != k && !Apart(j, k);
      assert HasLeaf(r.0, j, w);
      StoredApart(r.0, k[..d], j, w, k, NewValue(r.1, v, replace));
      assert false;
    }
  }

  /** Whatever the key, a value is returned only if it was stored under the key. */
  lemma {:induction false} InsertFinds<V>(n: Node<V>, k: Key, v: V, d: nat, replace: bool, beyond: Beyond)
    requires Shaped(n)
    ensures Insert(n, k, v, d, replace, beyond).1.Some? ==> HasLeaf(n, k, Insert(n, k, v, d, replace, beyond).1.value)
    decreases Weight(n)
  {
    hide Insert, Shaped, Get, Replace, Add, PrefixMismatch, SplitPrefix, SplitLeaf, Weight, Wf;
    if n.Leaf? {
      InsertAtLeaf(n, k, v, d, replace, beyond);
    } else if n.partialLen > 0 && PrefixMismatch(n, k, d, beyond) < n.partialLen {
      InsertSplits(n, k, v, d, replace, beyond);
    } else {
      var c := KeyByte(k, d + n.partialLen, beyond);
      InsertDescends(n, k, v, d, replace, beyond, c);
      if Get(n.body, c).Some? {
        WeightDrops(n, c);
        InsertFinds(Get(n.body, c).value, k, v, d + n.partialLen + 1, replace, beyond);
      }
    }
  }
}
