/**
 Two layouts with the same bytes in the same places, over different kinds of children: pointers
 on the heap and the trees they stand for.
 */
module ArtMirror {

  import opened ArtLayout

  /** The same slots are taken. */
  predicate SameSlots<A, B>(a: seq<Option<A>>, b: seq<Option<B>>) {
    |a| == |b| && forall i :: 0 <= i < |a| ==> (a[i].Some? <==> b[i].Some?)
  }

  predicate Mirrors<A, B>(l: Layout<A>, t: Layout<B>) {
    match l
    case Node4(keys, kids) => t.Node4? && t.keys == keys && |t.kids| == |kids|
    case Node16(keys, kids) => t.Node16? && t.keys == keys && |t.kids| == |kids|
    case Node48(count, index, slots) => t.Node48? && t.count == count && t.index == index && SameSlots(slots, t.slots)
    case Node256(count, slots) => t.Node256? && t.count == count && SameSlots(slots, t.slots)
  }

  lemma {:induction false} SameCount<A, B>(a: seq<Option<A>>, b: seq<Option<B>>)
    requires SameSlots(a, b)
    ensures CountSome(a) == CountSome(b)
    decreases |a|
  {
    if a != [] { SameCount(a[..|a| - 1], b[..|b| - 1]); }
  }

  lemma MirrorsWf<A, B>(l: Layout<A>, t: Layout<B>)
    requires Mirrors(l, t) && Wf(t)
    ensures Wf(l) && Size(l) == Size(t) && (InRange(l) <==> InRange(t))
  {
    if l.Node48? || l.Node256? { SameCount(l.slots, t.slots); }
    hide CountSome, CountNonzero;
  }

  lemma MirrorsGet<A, B>(l: Layout<A>, t: Layout<B>, c: Byte)
    requires Mirrors(l, t) && Wf(t)
    ensures Get(l, c).Some? <==> Get(t, c).Some?
  {
    hide CountSome, CountNonzero, FindKey;
  }

  // ----- Growing -----

  lemma SamePadded<A, B>(a: seq<A>, b: seq<B>, n: nat)
    requires |a| == |b| <= n
    ensures SameSlots(Padded(a, n), Padded(b, n))
  {
  }

  lemma {:induction false} SameFirstFree<A, B>(a: seq<Option<A>>, b: seq<Option<B>>)
    requires SameSlots(a, b)
    ensures FirstFree(a) == FirstFree(b)
  {
  }

  lemma MirrorsAdd48<A, B>(count: nat, index: seq<nat>, a: seq<Option<A>>, b: seq<Option<B>>, c: Byte, x: A, y: B)
    requires Wf(Node48(count, index, a)) && Wf(Node48(count, index, b)) && SameSlots(a, b)
    ensures Mirrors(Add48(count, index, a, c, x), Add48(count, index, b, c, y))
  {
    CountSomeBounds(a);
    CountSomeBounds(b);
    SameFirstFree(a, b);
    hide CountSome, CountNonzero, FirstFree;
  }

  lemma MirrorsAdd16<A, B>(keys: seq<Byte>, a: seq<A>, b: seq<B>, c: Byte, x: A, y: B)
    requires SmallOk(keys, a) && SmallOk(keys, b) && |keys| <= 16
    ensures Mirrors(Add16(keys, a, c, x), Add16(keys, b, c, y))
  {
    if |keys| == 16 {
      Grow16Keeps(keys, a);
      Grow16Keeps(keys, b);
      SamePadded(a, b, 48);
      hide Indexed, Padded, Add48;
      MirrorsAdd48(|keys|, Indexed(keys, |keys|), Padded(a, 48), Padded(b, 48), c, x, y);
    }
  }

  /** Adding at the same byte keeps two layouts alike. */
  lemma MirrorsAdd<A, B>(l: Layout<A>, t: Layout<B>, c: Byte, x: A, y: B)
    requires Mirrors(l, t) && Wf(l) && Wf(t)
    ensures Mirrors(Add(l, c, x), Add(t, c, y))
  {
    hide Add16, Add48, CountSome, CountNonzero;
    match l
    case Node4(keys, kids) => if |keys| == 4 { MirrorsAdd16(keys, kids, t.kids, c, x, y); }
    case Node16(keys, kids) => MirrorsAdd16(keys, kids, t.kids, c, x, y);
    case Node48(count, index, slots) => MirrorsAdd48(count, index, slots, t.slots, c, x, y);
    case Node256(_, _) =>
  }

  // ----- Shrinking -----

  lemma {:induction false} SamePacked<A, B>(a: seq<Option<A>>, b: seq<Option<B>>, n: nat)
    requires SameSlots(a, b) && n <= |a|
    ensures Packed(a, n).0 == Packed(b, n).0 && |Packed(a, n).1| == |Packed(b, n).1|
  {
    if n > 0 { SamePacked(a, b, n - 1); }
  }

  lemma {:induction false} SameListed<A, B>(index: seq<nat>, a: seq<Option<A>>, b: seq<Option<B>>, n: nat)
    requires IndexOk(index, a) && IndexOk(index, b) && n <= 256
    ensures Listed(index, a, n).0 == Listed(index, b, n).0 && |Listed(index, a, n).1| == |Listed(index, b, n).1|
  {
    if n > 0 { SameListed(index, a, b, n - 1); }
  }

  lemma MirrorsRemove48<A, B>(count: nat, index: seq<nat>, a: seq<Option<A>>, b: seq<Option<B>>, c: Byte)
    requires Wf(Node48(count, index, a)) && Wf(Node48(count, index, b)) && SameSlots(a, b) && index[c] != 0
    ensures Mirrors(Remove48(count, index, a, c), Remove48(count, index, b, c))
  {
    Remove48Keeps(count, index, a, c);
    Remove48Keeps(count, index, b, c);
    hide CountSome, CountNonzero, Listed;
    if count - 1 == 12 { SameListed(index[c := 0], a[index[c] - 1 := None], b[index[c] - 1 := None], 256); }
  }

  lemma MirrorsRemove256<A, B>(count: nat, a: seq<Option<A>>, b: seq<Option<B>>, c: Byte)
    requires Wf(Node256(count, a)) && Wf(Node256(count, b)) && SameSlots(a, b) && a[c].Some?
    ensures Mirrors(Remove256(count, a, c), Remove256(count, b, c))
  {
    if (count + 255) % 256 == 37 {
      var a', b' := a[c := None], b[c := None];
      Remove256Count(count, a, c);
      Remove256Count(count, b, c);
      Shrink256Keeps(a');
      Shrink256Keeps(b');
      SamePacked(a', b', 256);
      SamePadded(Packed(a', 256).1, Packed(b', 256).1, 48);
      hide CountSome, CountNonzero, Packed, Padded;
    }
  }

  /** Removing at the same byte keeps two layouts alike. */
  lemma MirrorsRemove<A, B>(l: Layout<A>, t: Layout<B>, c: Byte)
    requires Mirrors(l, t) && Wf(l) && Wf(t) && Get(l, c).Some? && Get(t, c).Some?
    ensures Mirrors(Remove(l, c), Remove(t, c))
  {
    hide Remove48, Remove256, CountSome, CountNonzero;
    match l
    case Node4(_, _) =>
    case Node16(_, _) =>
    case Node48(count, index, slots) => MirrorsRemove48(count, index, slots, t.slots, c);
    case Node256(count, slots) => MirrorsRemove256(count, slots, t.slots, c);
  }

  lemma MirrorsReplace<A, B>(l: Layout<A>, t: Layout<B>, c: Byte, x: A, y: B)
    requires Mirrors(l, t) && Wf(l) && Wf(t) && Get(l, c).Some? && Get(t, c).Some?
    ensures Mirrors(Replace(l, c, x), Replace(t, c, y))
  {
    hide CountSome, CountNonzero, FindKey;
  }
}
