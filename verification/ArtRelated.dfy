/**
 What searches find after any insertion into a sound tree, also of a key that is a prefix or an
 extension of a stored key.
 */
module ArtRelated {

  import opened ArtLayout
  import opened ArtTree
  import opened ArtInsert

  // ----- One node -----

  /** A search in a node with two children, of which the first is found when the bytes are equal. */
  lemma PairSearch<V>(n: Node<V>, c: Byte, x: Node<V>, e: Byte, y: Node<V>, k: Key, d: nat, beyond: Beyond)
    requires n.Inner? && n.body == Two(c, x, e, y) && d + n.partialLen <= |k|
    requires n.partial == k[d..d + Min(MAX_PREFIX, n.partialLen)]
    ensures var b, d' := SearchByte(k, d + n.partialLen), d + n.partialLen + 1;
            Search(n, k, d, beyond) ==
            if b == c then Search(x, k, d', beyond) else if b == e then Search(y, k, d', beyond) else None
  {
    hide Two, Get;
    TwoGet(c, x, e, y, SearchByte(k, d + n.partialLen));
    assert !PrefixFails(n, k, d, beyond);
  }

  lemma SearchInner<V>(n: Node<V>, k: Key, d: nat, beyond: Beyond)
    requires n.Inner?
    ensures var c := SearchByte(k, d + n.partialLen);
            Search(n, k, d, beyond) ==
            if PrefixFails(n, k, d, beyond) || Get(n.body, c).None? then None
            else Search(Get(n.body, c).value, k, d + n.partialLen + 1, beyond)
  {
    hide PrefixFails, Get;
  }

  /** A search in a node of which one child was replaced or added. */
  lemma UpdatedSearch<V>(n: Node<V>, m: Node<V>, c: Byte, x: Node<V>, k: Key, d: nat, beyond: Beyond)
    requires n.Inner? && m.Inner? && m.partialLen == n.partialLen && m.partial == n.partial
    requires IsUpdate(n.body, m.body, c, Some(x))
    ensures Search(m, k, d, beyond) ==
            if SearchByte(k, d + n.partialLen) != c then Search(n, k, d, beyond)
            else if PrefixFails(n, k, d, beyond) then None
            else Search(x, k, d + n.partialLen + 1, beyond)
  {
    hide Get, Search;
    SearchInner(n, k, d, beyond);
    SearchInner(m, k, d, beyond);
    assert PrefixFails(m, k, d, beyond) <==> PrefixFails(n, k, d, beyond);
  }

  // ----- Splitting a leaf -----

  /** Whatever the new key, the old leaf is found. */
  lemma SplitLeafOld<V>(l: Node<V>, k: Key, v: V, d: nat, beyond: Beyond, beyond': Beyond)
    requires l.Leaf? && d <= |l.key|
    ensures Search(SplitLeaf(l, k, v, d, beyond), l.key, d, beyond') == Some(l.value)
  {
    hide CommonFrom, Two;
    var e := CommonFrom(l.key, k, d);
    CommonPart(l.key, k, d);
    PairSearch(SplitLeaf(l, k, v, d, beyond), LeafByte(l.key, e, beyond), l, LeafByte(k, e, beyond), Leaf(k, v),
               l.key, d, beyond');
  }

  lemma CommonPart(a: Key, b: Key, d: nat)
    requires d <= |a|
    ensures var e := CommonFrom(a, b, d);
            && d <= e <= |a| && Take(Drop(b, d), Min(MAX_PREFIX, e - d)) == a[d..d + Min(MAX_PREFIX, e - d)]
            && (d <= |b| ==> e <= |b| && a[d..d + Min(MAX_PREFIX, e - d)] == b[d..d + Min(MAX_PREFIX, e - d)])
  {
    hide Take, Drop;
    var e := CommonFrom(a, b, d);
    var m := Min(MAX_PREFIX, e - d);
    if d <= |b| {
      TakeOfDrop(b, d, m);
      SameSlice(a, b, d, m);
    } else {
      TakeNone(Drop(b, d));
      assert m == 0;
    }
  }

  lemma TakeOfDrop(s: Key, d: nat, m: nat)
    requires d + m <= |s|
    ensures Take(Drop(s, d), m) == s[d..d + m]
  {
  }

  lemma TakeNone(s: Key)
    ensures Take(s, 0) == []
  {
  }

  lemma SameSlice(a: Key, b: Key, d: nat, m: nat)
    requires d + m <= |a| && d + m <= |b| && forall i :: d <= i < d + m ==> a[i] == b[i]
    ensures a[d..d + m] == b[d..d + m]
  {
  }

  /** The new key is found unless the bytes at which the keys part, or 0 at an end, are equal. */
  lemma SplitLeafNew<V>(l: Node<V>, k: Key, v: V, d: nat, beyond: Beyond, beyond': Beyond)
    requires l.Leaf? && d <= |l.key| && d <= |k| && l.key != k
    ensures var e := CommonFrom(l.key, k, d);
            Search(SplitLeaf(l, k, v, d, beyond), k, d, beyond') ==
            if SearchByte(k, e) == SearchByte(l.key, e) then None else Some(v)
  {
    hide CommonFrom, Two;
    var e := CommonFrom(l.key, k, d);
    CommonPart(l.key, k, d);
    PairSearch(SplitLeaf(l, k, v, d, beyond), LeafByte(l.key, e, beyond), l, LeafByte(k, e, beyond), Leaf(k, v),
               k, d, beyond');
  }

  // ----- Splitting a prefix -----

  lemma SplitPart<V>(n: Node<V>, pre: Key, diff: nat, x: Key)
    requires n.Inner? && Inv(n, pre) && diff < n.partialLen
    requires |pre| + diff <= |x| && AgreeTo(x, Path(n, pre), |pre| + diff)
    ensures Take(n.partial, Min(MAX_PREFIX, diff)) == x[|pre|..|pre| + Min(MAX_PREFIX, diff)]
  {
    InvInner(n, pre);
    hide Inv, Path, Wf, InRange, Get;
  }

  /** A search in a node whose prefix was split, for a key that has the common part. */
  lemma SplitPrefixSearch<V>(n: Node<V>, pre: Key, k: Key, v: V, diff: nat, beyond: Beyond, x: Key, beyond': Beyond)
    requires n.Inner? && Inv(n, pre) && diff < n.partialLen
    requires |pre| + diff <= |x| && AgreeTo(x, Path(n, pre), |pre| + diff)
    ensures var e, d := |pre| + diff, |pre|;
            && |Path(n, pre)| == d + n.partialLen
            && Search(SplitPrefix(n, k, v, d, diff, beyond), x, d, beyond') ==
               if SearchByte(x, e) == Path(n, pre)[e] then Search(Shortened(n, d, diff), x, e + 1, beyond')
               else if SearchByte(x, e) == KeyByte(k, e, beyond) then (if x == k then Some(v) else None)
               else None
  {
    hide Inv, Path, Two, Shortened, SplitByte, AgreeTo, Search;
    var d, e := |pre|, |pre| + diff;
    SplitPart(n, pre, diff, x);
    SplitByteIs(n, pre, diff, beyond);
    PairSearch(SplitPrefix(n, k, v, d, diff, beyond), SplitByte(n, d, diff, beyond), Shortened(n, d, diff),
               KeyByte(k, e, beyond), Leaf(k, v), x, d, beyond');
    LeafSearch(k, v, x, e + 1, beyond');
  }

  lemma LeafSearch<V>(k: Key, v: V, x: Key, d: nat, beyond: Beyond)
    ensures Search(Leaf(k, v), x, d, beyond) == if x == k then Some(v) else None
  {
  }

  // ----- All other keys -----

  /** An insertion adds no other key. */
  lemma {:induction false} AddsOnly<V>(n: Node<V>, k: Key, v: V, d: nat, replace: bool, beyond: Beyond, x: Key, w: V)
    requires Shaped(n) && x != k && HasLeaf(Insert(n, k, v, d, replace, beyond).0, x, w)
    ensures HasLeaf(n, x, w)
    decreases Weight(n)
  {
    hide Shaped, HasLeaf, Insert, SplitLeaf, SplitPrefix, PrefixMismatch, Get, Add, Replace, Weight, Wf;
    var m := Insert(n, k, v, d, replace, beyond).0;
    if n.Leaf? {
      InsertAtLeaf(n, k, v, d, replace, beyond);
      LeafAddsOnly(n, k, v, d, beyond, x, w);
    } else if n.partialLen > 0 && PrefixMismatch(n, k, d, beyond) < n.partialLen {
      InsertSplits(n, k, v, d, replace, beyond);
      SplitAddsOnly(n, k, v, d, PrefixMismatch(n, k, d, beyond), beyond, x, w);
    } else {
      var c := KeyByte(k, d + n.partialLen, beyond);
      InsertDescends(n, k, v, d, replace, beyond, c);
      HasOrElsewhere(n, c, x, w);
      if Get(n.body, c).Some? {
        var child := Get(n.body, c).value;
        var child' := Insert(child, k, v, d + n.partialLen + 1, replace, beyond).0;
        ReplaceKeeps(n.body, c, child');
        HasUpdated(n, m, c, child', x, w);
        WeightDrops(n, c);
        if HasLeaf(child', x, w) { AddsOnly(child, k, v, d + n.partialLen + 1, replace, beyond, x, w); }
      } else {
        AddKeeps(n.body, c, Leaf(k, v));
        HasUpdated(n, m, c, Leaf(k, v), x, w);
        LeafOnlyHas(k, v, x, w);
      }
    }
  }

  lemma LeafOnlyHas<V>(k: Key, v: V, x: Key, w: V)
    ensures HasLeaf(Leaf(k, v), x, w) <==> x == k && w == v
  {
  }

  lemma TwoAddsOnly<V>(n: Node<V>, c: Byte, y: Node<V>, e: Byte, z: Node<V>, x: Key, w: V)
    requires n.Inner? && n.body == Two(c, y, e, z) && HasLeaf(n, x, w)
    ensures HasLeaf(y, x, w) || HasLeaf(z, x, w)
  {
    hide Two, Get;
    var b: Byte :| Get(n.body, b).Some? && HasLeaf(Get(n.body, b).value, x, w);
    TwoGet(c, y, e, z, b);
  }

  lemma LeafAddsOnly<V>(l: Node<V>, k: Key, v: V, d: nat, beyond: Beyond, x: Key, w: V)
    requires l.Leaf? && x != k
    ensures !HasLeaf(Leaf(k, v), x, w) && !HasLeaf(Leaf(k, l.value), x, w)
    ensures HasLeaf(SplitLeaf(l, k, v, d, beyond), x, w) ==> HasLeaf(l, x, w)
  {
    var e := CommonFrom(l.key, k, d);
    if HasLeaf(SplitLeaf(l, k, v, d, beyond), x, w) {
      TwoAddsOnly(SplitLeaf(l, k, v, d, beyond), LeafByte(l.key, e, beyond), l, LeafByte(k, e, beyond), Leaf(k, v), x, w);
    }
  }

  lemma SplitAddsOnly<V>(n: Node<V>, k: Key, v: V, d: nat, diff: nat, beyond: Beyond, x: Key, w: V)
    requires n.Inner? && diff < n.partialLen && x != k && HasLeaf(SplitPrefix(n, k, v, d, diff, beyond), x, w)
    ensures HasLeaf(n, x, w)
  {
    hide HasLeaf, Two, Shortened, SplitByte;
    TwoAddsOnly(SplitPrefix(n, k, v, d, diff, beyond), SplitByte(n, d, diff, beyond), Shortened(n, d, diff),
                KeyByte(k, d + diff, beyond), Leaf(k, v), x, w);
    LeafOnlyHas(k, v, x, w);
    ShortenedBody(n, d, diff);
    SameBody(n, Shortened(n, d, diff), x, w);
  }

  /** Whatever is inserted, every other stored key is found again. */
  lemma {:induction false} OldKeyFound<V>(n: Node<V>, pre: Key, k: Key, v: V, replace: bool, beyond: Beyond,
                                               x: Key, w: V, beyond': Beyond)
    requires Inv(n, pre) && Shaped(n) && x != k && HasLeaf(n, x, w)
    ensures Search(Insert(n, k, v, |pre|, replace, beyond).0, x, |pre|, beyond') == Some(w)
    decreases Weight(n)
  {
    hide Inv, Shaped, HasLeaf, Insert, SplitLeaf, SplitPrefix, PrefixMismatch, PrefixFails, Get, Add, Replace, Weight,
         Wf, Search, Path;
    var d, m := |pre|, Insert(n, k, v, |pre|, replace, beyond).0;
    LeafExtends(n, pre, x, w);
    if n.Leaf? {
      LeafOnlyHas(n.key, n.value, x, w);
      InsertAtLeaf(n, k, v, d, replace, beyond);
      SplitLeafOld(n, k, v, d, beyond, beyond');
    } else if n.partialLen > 0 && PrefixMismatch(n, k, d, beyond) < n.partialLen {
      InsertSplits(n, k, v, d, replace, beyond);
      SplitOldKey(n, pre, k, v, PrefixMismatch(n, k, d, beyond), beyond, x, w, beyond');
    } else {
      var c, e := KeyByte(k, d + n.partialLen, beyond), x[|Path(n, pre)|];
      InsertDescends(n, k, v, d, replace, beyond, c);
      ChildHolds(n, pre, e);
      PrefixHolds(n, pre, x, beyond');
      if Get(n.body, c).Some? {
        var child := Get(n.body, c).value;
        var child' := Insert(child, k, v, d + n.partialLen + 1, replace, beyond).0;
        ReplaceKeeps(n.body, c, child');
        UpdatedSearch(n, m, c, child', x, d, beyond');
        WeightDrops(n, c);
        if e == c {
          OldKeyFound(child, Path(n, pre) + [c], k, v, replace, beyond, x, w, beyond');
        } else {
          SearchComplete(n, pre, x, w, beyond');
        }
      } else {
        AddKeeps(n.body, c, Leaf(k, v));
        UpdatedSearch(n, m, c, Leaf(k, v), x, d, beyond');
        SearchComplete(n, pre, x, w, beyond');
      }
    }
  }

  lemma SplitOldKey<V>(n: Node<V>, pre: Key, k: Key, v: V, diff: nat, beyond: Beyond, x: Key, w: V, beyond': Beyond)
    requires n.Inner? && Inv(n, pre) && diff < n.partialLen && x != k && HasLeaf(n, x, w)
    ensures Search(SplitPrefix(n, k, v, |pre|, diff, beyond), x, |pre|, beyond') == Some(w)
  {
    hide Inv, HasLeaf, SplitPrefix, Path, Get, Shortened, Search;
    var d := |pre|;
    LeafExtends(n, pre, x, w);
    ShortenedKeeps(n, pre, diff);
    SplitPrefixSearch(n, pre, k, v, diff, beyond, x, beyond');
    ShortenedBody(n, d, diff);
    SameBody(n, Shortened(n, d, diff), x, w);
    SearchComplete(Shortened(n, d, diff), Path(n, pre)[..d + diff + 1], x, w, beyond');
  }

  /** Whatever is inserted into a sound tree, the search for every other key returns what it returned before. */
  lemma OthersUnchanged<V>(n: Node<V>, pre: Key, k: Key, v: V, replace: bool, beyond: Beyond, x: Key, beyond': Beyond)
    requires Inv(n, pre) && Shaped(n) && x != k
    ensures Search(Insert(n, k, v, |pre|, replace, beyond).0, x, |pre|, beyond') == Search(n, x, |pre|, beyond')
  {
    hide Inv, Shaped, HasLeaf, Insert, Search;
    var m := Insert(n, k, v, |pre|, replace, beyond).0;
    SearchSound(m, x, |pre|, beyond');
    SearchSound(n, x, |pre|, beyond');
    if Search(m, x, |pre|, beyond').Some? {
      var w := Search(m, x, |pre|, beyond').value;
      AddsOnly(n, k, v, |pre|, replace, beyond, x, w);
      SearchComplete(n, pre, x, w, beyond');
    } else if Search(n, x, |pre|, beyond').Some? {
      OldKeyFound(n, pre, k, v, replace, beyond, x, Search(n, x, |pre|, beyond').value, beyond');
    }
  }

  // ----- The inserted key -----

  /** A key that has a stored key as a proper prefix is found if and only if it does not go on with 0 after it. */
  lemma {:induction false} ExtensionFound<V>(n: Node<V>, pre: Key, j: Key, w: V, k: Key, v: V,
                                               replace: bool, beyond: Beyond, beyond': Beyond)
    requires Inv(n, pre) && Shaped(n) && HasLeaf(n, j, w) && j < k
    ensures Search(Insert(n, k, v, |pre|, replace, beyond).0, k, |pre|, beyond') == if k[|j|] != 0 then Some(v) else None
    decreases Weight(n)
  {
    hide Inv, Shaped, HasLeaf, Insert, SplitLeaf, PrefixMismatch, PrefixFails, Get, Replace, Weight, Wf, Search, Path, CommonFrom;
    var d, m := |pre|, Insert(n, k, v, |pre|, replace, beyond).0;
    LeafExtends(n, pre, j, w);
    if n.Leaf? {
      LeafOnlyHas(n.key, n.value, j, w);
      InsertAtLeaf(n, k, v, d, replace, beyond);
      SplitLeafNew(n, k, v, d, beyond, beyond');
      CommonOfPrefix(j, k, d);
    } else {
      var c := k[|Path(n, pre)|];
      FollowsPath(n, pre, k, beyond);
      InsertDescends(n, k, v, d, replace, beyond, c);
      var child := Get(n.body, c).value;
      var child' := Insert(child, k, v, d + n.partialLen + 1, replace, beyond).0;
      ReplaceKeeps(n.body, c, child');
      UpdatedSearch(n, m, c, child', k, d, beyond');
      PrefixHolds(n, pre, k, beyond');
      ChildHolds(n, pre, c);
      WeightDrops(n, c);
      ExtensionFound(child, Path(n, pre) + [c], j, w, k, v, replace, beyond, beyond');
    }
  }

  /** Every stored key and the new key `k` are found with their values. */
  ghost predicate AllFound<V(!new)>(n: Node<V>, m: Node<V>, k: Key, v: V, beyond: Beyond) {
    && Search(m, k, 0, beyond) == Some(v)
    && forall x, w :: HasLeaf(n, x, w) && x != k ==> Search(m, x, 0, beyond) == Some(w)
  }

  /** After the insertion of an extension of a stored key all keys are found if and only if it does not go on with 0. */
  lemma ExtensionExactly<V(!new)>(n: Node<V>, j: Key, w: V, k: Key, v: V, replace: bool, beyond: Beyond, beyond': Beyond)
    requires Inv(n, []) && Shaped(n) && HasLeaf(n, j, w) && j < k
    ensures AllFound(n, Insert(n, k, v, 0, replace, beyond).0, k, v, beyond') <==> k[|j|] != 0
  {
    hide Inv, Shaped, HasLeaf, Insert, Search;
    ExtensionFound(n, [], j, w, k, v, replace, beyond, beyond');
    forall x, u | HasLeaf(n, x, u) && x != k ensures Search(Insert(n, k, v, 0, replace, beyond).0, x, 0, beyond') == Some(u) {
      OldKeyFound(n, [], k, v, replace, beyond, x, u, beyond');
    }
  }

  lemma CommonOfPrefix(a: Key, b: Key, d: nat)
    requires a < b && d <= |a|
    ensures CommonFrom(a, b, d) == |a| && CommonFrom(b, a, d) == |a|
  {
  }

  /** A key that has the path of a node as a proper prefix descends. */
  lemma FollowsPath<V>(n: Node<V>, pre: Key, k: Key, beyond: Beyond)
    requires n.Inner? && Inv(n, pre) && Path(n, pre) <= k
    ensures |Path(n, pre)| == |pre| + n.partialLen && PrefixMismatch(n, k, |pre|, beyond) >= n.partialLen
  {
    InvInner(n, pre);
    hide Inv, Path, PrefixMismatch, Get, Wf, InRange;
    assert k[..|pre|] == pre;
    NodeMismatch(n, k, |pre|, beyond);
  }

  // ----- A prefix of stored keys -----

  /** Some stored key goes on after `k` with the byte `b`. */
  ghost predicate GoesOn<V(!new)>(n: Node<V>, k: Key, b: Byte) {
    exists j, w :: HasLeaf(n, j, w) && k < j && j[|k|] == b
  }

  /** At most one stored key goes on after `k`. */
  ghost predicate AtMostOne<V(!new)>(n: Node<V>, k: Key) {
    forall j, w, j', w' :: HasLeaf(n, j, w) && k < j && HasLeaf(n, j', w') && k < j' ==> j == j'
  }

  /**
   What the search for the new key `k` returns, where it is a proper prefix of a stored key and `b` is
   the byte that the insertion reads after it.
   */
  ghost predicate PrefixOutcome<V(!new)>(n: Node<V>, k: Key, v: V, b: Byte, r: Option<V>) {
    && (AtMostOne(n, k) ==> r == if GoesOn(n, k, 0) then None else Some(v))
    && (!AtMostOne(n, k) && !GoesOn(n, k, 0) ==> r == if b == 0 then Some(v) else None)
    && (!AtMostOne(n, k) && (b != 0 || OnlyZero(n, k)) ==> r == None)
  }

  ghost predicate OnlyZero<V(!new)>(n: Node<V>, k: Key) {
    forall c: Byte :: GoesOn(n, k, c) ==> c == 0
  }

  lemma LeafOutcome<V(!new)>(l: Node<V>, k: Key, v: V, d: nat, beyond: Beyond, beyond': Beyond)
    requires l.Leaf? && d <= |k| && k < l.key
    ensures PrefixOutcome(l, k, v, beyond(|k|), Search(SplitLeaf(l, k, v, d, beyond), k, d, beyond'))
  {
    hide SplitLeaf, Search, CommonFrom;
    LeafHas(l.key, l.value);
    CommonOfPrefix(k, l.key, d);
    SplitLeafNew(l, k, v, d, beyond, beyond');
    assert HasLeaf(l, l.key, l.value);
  }

  /** Two children of a node of the tree. */
  lemma TwoKids<T>(l: Layout<T>) returns (c: Byte, e: Byte)
    requires Wf(l) && InRange(l)
    ensures c != e && Get(l, c).Some? && Get(l, e).Some?
  {
    hide Wf, Get, Remove, First;
    c := FirstIs(l);
    RemoveKeeps(l, c);
    e := FirstIs(Remove(l, c));
    assert e != c;
  }

  lemma KidHasLeaf<V>(n: Node<V>, pre: Key, c: Byte) returns (j: Key, w: V)
    requires n.Inner? && Inv(n, pre) && Get(n.body, c).Some?
    ensures HasLeaf(n, j, w) && Path(n, pre) + [c] <= j
  {
    hide Inv, Path, Get, MinKey;
    ChildHolds(n, pre, c);
    j := MinKey(Get(n.body, c).value);
    w := MinKeyIsLeaf(Get(n.body, c).value, Path(n, pre) + [c]);
    LeafExtends(Get(n.body, c).value, Path(n, pre) + [c], j, w);
  }

  /** Several stored keys go on after the path of a node, and after its prefixes. */
  lemma SeveralBelow<V(!new)>(n: Node<V>, pre: Key, k: Key)
    requires n.Inner? && Inv(n, pre) && k <= Path(n, pre)
    ensures !AtMostOne(n, k)
  {
    InvInner(n, pre);
    hide Inv, Path, Get, Wf, InRange, HasLeaf;
    var c, e := TwoKids(n.body);
    var path := Path(n, pre);
    var j, w := KidHasLeaf(n, pre, c);
    var j', w' := KidHasLeaf(n, pre, e);
    assert j[|path|] == (path + [c])[|path|] && j'[|path|] == (path + [e])[|path|];
    BelowPrefix(k, path, c, j);
    BelowPrefix(k, path, e, j');
  }

  lemma BelowPrefix(k: Key, path: Key, c: Byte, j: Key)
    requires k <= path && path + [c] <= j
    ensures k < j && (|k| < |path| ==> j[|k|] == path[|k|]) && (|k| == |path| ==> j[|k|] == c)
  {
    assert forall i :: 0 <= i < |path| ==> (path + [c])[i] == path[i] == j[i];
    assert (path + [c])[|path|] == c == j[|path|];
  }

  lemma ShortNotStored<V(!new)>(n: Node<V>, pre: Key, k: Key)
    requires n.Inner? && Inv(n, pre) && |k| <= |Path(n, pre)|
    ensures forall w :: !HasLeaf(n, k, w)
  {
    hide Inv, Path, Get, HasLeaf;
    forall w ensures !HasLeaf(n, k, w) {
      if HasLeaf(n, k, w) { LeafExtends(n, pre, k, w); assert false; }
    }
  }

  lemma NotFound<V>(n: Node<V>, k: Key, d: nat, beyond: Beyond)
    requires forall w :: !HasLeaf(n, k, w)
    ensures Search(n, k, d, beyond) == None
  {
    hide Search, HasLeaf;
    SearchSound(n, k, d, beyond);
  }

  /** All stored keys go on after a proper prefix of the path with its next byte. */
  lemma InsideGoesOn<V(!new)>(n: Node<V>, pre: Key, k: Key, b: Byte)
    requires n.Inner? && Inv(n, pre) && k < Path(n, pre)
    ensures GoesOn(n, k, b) <==> Path(n, pre)[|k|] == b
  {
    InvInner(n, pre);
    hide Inv, Path, Get, Wf, InRange, HasLeaf;
    var path := Path(n, pre);
    if GoesOn(n, k, b) {
      var j, w :| HasLeaf(n, j, w) && k < j && j[|k|] == b;
      LeafExtends(n, pre, j, w);
    }
    if path[|k|] == b {
      var c, _ := TwoKids(n.body);
      var j, w := KidHasLeaf(n, pre, c);
      BelowPrefix(k, path, c, j);
    }
  }

  /** The new key ends inside a compressed prefix. */
  lemma InsideOutcome<V(!new)>(n: Node<V>, pre: Key, k: Key, v: V, replace: bool, beyond: Beyond, beyond': Beyond)
    requires n.Inner? && Inv(n, pre) && Shaped(n) && pre <= k && k < Path(n, pre)
    ensures PrefixOutcome(n, k, v, beyond(|k|), Search(Insert(n, k, v, |pre|, replace, beyond).0, k, |pre|, beyond'))
  {
    hide Inv, Shaped, HasLeaf, Insert, SplitPrefix, PrefixMismatch, Shortened, Search, Path, Get, AtMostOne, GoesOn;
    var d, path := |pre|, Path(n, pre);
    var diff := |k| - d;
    EndsInside(n, pre, k, beyond);
    InsertSplits(n, k, v, d, replace, beyond);
    SplitPrefixSearch(n, pre, k, v, diff, beyond, k, beyond');
    ShortNotStored(n, pre, k);
    ShortenedBody(n, d, diff);
    forall w ensures !HasLeaf(Shortened(n, d, diff), k, w) { SameBody(n, Shortened(n, d, diff), k, w); }
    NotFound(Shortened(n, d, diff), k, |k| + 1, beyond');
    SeveralBelow(n, pre, k);
    InsideGoesOn(n, pre, k, 0);
    InsideGoesOn(n, pre, k, path[|k|]);
  }

  lemma EndsInside<V>(n: Node<V>, pre: Key, k: Key, beyond: Beyond)
    requires n.Inner? && Inv(n, pre) && pre <= k && k < Path(n, pre)
    ensures |Path(n, pre)| == |pre| + n.partialLen && PrefixMismatch(n, k, |pre|, beyond) == |k| - |pre| < n.partialLen
    ensures AgreeTo(k, Path(n, pre), |k|)
  {
    InvInner(n, pre);
    hide Inv, Path, PrefixMismatch, Get, Wf, InRange;
    assert k[..|pre|] == pre;
    NodeMismatch(n, k, |pre|, beyond);
  }

  /** The new key is the path of a node. */
  lemma NodeOutcome<V(!new)>(n: Node<V>, pre: Key, k: Key, v: V, replace: bool, beyond: Beyond, beyond': Beyond)
    requires n.Inner? && Inv(n, pre) && Shaped(n) && k == Path(n, pre)
    ensures PrefixOutcome(n, k, v, beyond(|k|), Search(Insert(n, k, v, |pre|, replace, beyond).0, k, |pre|, beyond'))
  {
    hide Inv, Shaped, HasLeaf, Insert, PrefixMismatch, PrefixFails, Search, Path, Get, AtMostOne, GoesOn, Add, Replace, Wf;
    var d, c, m := |pre|, beyond(|k|), Insert(n, k, v, |pre|, replace, beyond).0;
    FollowsPath(n, pre, k, beyond);
    InsertDescends(n, k, v, d, replace, beyond, c);
    ShortNotStored(n, pre, k);
    NotFound(n, k, d, beyond');
    SeveralBelow(n, pre, k);
    NotOnlyZero(n, pre);
    PrefixHolds(n, pre, k, beyond');
    if Get(n.body, c).None? {
      AddKeeps(n.body, c, Leaf(k, v));
      UpdatedSearch(n, m, c, Leaf(k, v), k, d, beyond');
      LeafSearch(k, v, k, |k| + 1, beyond');
    } else {
      var child' := Insert(Get(n.body, c).value, k, v, |k| + 1, replace, beyond).0;
      ReplaceKeeps(n.body, c, child');
      UpdatedSearch(n, m, c, child', k, d, beyond');
      if c == 0 { KidGoesOn(n, pre, 0); }
    }
  }

  lemma NotOnlyZero<V(!new)>(n: Node<V>, pre: Key)
    requires n.Inner? && Inv(n, pre)
    ensures !OnlyZero(n, Path(n, pre))
  {
    InvInner(n, pre);
    hide Inv, Path, Get, Wf, InRange, GoesOn;
    var c, e := TwoKids(n.body);
    KidGoesOn(n, pre, c);
    KidGoesOn(n, pre, e);
  }

  lemma KidGoesOn<V(!new)>(n: Node<V>, pre: Key, c: Byte)
    requires n.Inner? && Inv(n, pre) && Get(n.body, c).Some?
    ensures GoesOn(n, Path(n, pre), c)
  {
    hide Inv, Path, Get, HasLeaf;
    var j, w := KidHasLeaf(n, pre, c);
    BelowPrefix(Path(n, pre), Path(n, pre), c, j);
  }

  /** The keys that go on after a key that follows one branch are below that branch. */
  lemma GoesOnBelow<V(!new)>(n: Node<V>, pre: Key, k: Key)
    requires n.Inner? && Inv(n, pre) && Path(n, pre) < k && Get(n.body, k[|Path(n, pre)|]).Some?
    ensures var child := Get(n.body, k[|Path(n, pre)|]).value;
            && (AtMostOne(n, k) <==> AtMostOne(child, k)) && forall b: Byte :: GoesOn(n, k, b) <==> GoesOn(child, k, b)
  {
    hide Inv, Path, Get, HasLeaf;
    var child := Get(n.body, k[|Path(n, pre)|]).value;
    forall j, w | k < j ensures HasLeaf(n, j, w) <==> HasLeaf(child, j, w) {
      HasOrElsewhere(n, k[|Path(n, pre)|], j, w);
      if HasLeaf(n, j, w) { LeafExtends(n, pre, j, w); }
    }
  }

  /** A key that is a proper prefix of stored keys, inserted into any sound tree. */
  lemma {:induction false} PrefixFound<V(!new)>(n: Node<V>, pre: Key, j: Key, w: V, k: Key, v: V,
                                               replace: bool, beyond: Beyond, beyond': Beyond)
    requires Inv(n, pre) && Shaped(n) && pre <= k && HasLeaf(n, j, w) && k < j
    ensures PrefixOutcome(n, k, v, beyond(|k|), Search(Insert(n, k, v, |pre|, replace, beyond).0, k, |pre|, beyond'))
    decreases Weight(n)
  {
    hide Inv, Shaped, HasLeaf, Insert, SplitLeaf, PrefixMismatch, PrefixFails, Get, Replace, Weight, Wf, Search, Path, AtMostOne, GoesOn;
    var d, m := |pre|, Insert(n, k, v, |pre|, replace, beyond).0;
    LeafExtends(n, pre, j, w);
    if n.Leaf? {
      LeafOnlyHas(n.key, n.value, j, w);
      InsertAtLeaf(n, k, v, d, replace, beyond);
      LeafOutcome(n, k, v, d, beyond, beyond');
    } else if |k| < |Path(n, pre)| {
      InsideOutcome(n, pre, k, v, replace, beyond, beyond');
    } else if |k| == |Path(n, pre)| {
      NodeOutcome(n, pre, k, v, replace, beyond, beyond');
    } else {
      var c := k[|Path(n, pre)|];
      FollowsPath(n, pre, k, beyond);
      InsertDescends(n, k, v, d, replace, beyond, c);
      var child := Get(n.body, c).value;
      var child' := Insert(child, k, v, d + n.partialLen + 1, replace, beyond).0;
      ReplaceKeeps(n.body, c, child');
      UpdatedSearch(n, m, c, child', k, d, beyond');
      PrefixHolds(n, pre, k, beyond');
      ChildHolds(n, pre, c);
      WeightDrops(n, c);
      GoesOnBelow(n, pre, k);
      PrefixFound(child, Path(n, pre) + [c], j, w, k, v, replace, beyond, beyond');
    }
  }
}
