/**
 The loops over the arrays of the four node layouts: each computes the matching function of
 `ArtLayout`.
 */
module ArtLayoutLoops {

  import opened Sequences
  import opened ArtLayout

  method FindKeyLoop(keys: seq<Byte>, c: Byte) returns (i: nat)
    ensures i == FindKey(keys, c)
  {
    i := 0;
    while i < |keys| && keys[i] != c
      invariant i <= |keys|
      invariant forall j :: 0 <= j < i ==> keys[j] != c
    {
      i := i + 1;
    }
  }

  /** The first key above `c`; the others are shifted behind it. */
  method InsertPlaceLoop(keys: seq<Byte>, c: Byte) returns (i: nat)
    requires Sorted(keys)
    ensures i == InsertPlace(keys, c)
  {
    i := 0;
    while i < |keys| && c >= keys[i]
      invariant i <= |keys|
      invariant forall j :: 0 <= j < i ==> keys[j] <= c
    {
      i := i + 1;
    }
  }

  method FindChild<T>(l: Layout<T>, c: Byte) returns (r: Option<T>)
    requires Wf(l)
    ensures r == Get(l, c)
  {
    match l
    case Node4(keys, kids) =>
      var i := FindKeyLoop(keys, c);
      r := if i < |keys| then Some(kids[i]) else None;
    case Node16(keys, kids) =>
      var i := FindKeyLoop(keys, c);
      r := if i < |keys| then Some(kids[i]) else None;
    case Node48(_, index, slots) =>
      r := if index[c] != 0 then slots[index[c] - 1] else None;
    case Node256(_, slots) =>
      r := slots[c];
  }

  // ----- Growing -----

  method GrowTo48<T>(keys: seq<Byte>, kids: seq<T>) returns (l: Layout<T>)
    requires SmallOk(keys, kids) && |kids| <= 48
    ensures l == Grow16(keys, kids)
  {
    var index := seq(256, _ => 0);
    var i := 0;
    while i < |keys|
      invariant i <= |keys| && index == Indexed(keys, i)
    {
      index := index[keys[i] := i + 1];
      i := i + 1;
    }
    l := Node48(|keys|, index, Padded(kids, 48));
  }

  method GrowTo256<T>(count: nat, index: seq<nat>, slots: seq<Option<T>>) returns (l: Layout<T>)
    requires IndexOk(index, slots)
    ensures l == Grow48(count, index, slots)
  {
    var slots': seq<Option<T>> := seq(256, _ => None);
    ghost var goal := Grow48(count, index, slots).slots;
    var i := 0;
    while i < 256
      invariant i <= 256 && |slots'| == 256
      invariant forall c :: 0 <= c < 256 ==> slots'[c] == if c < i then goal[c] else None
    {
      if index[i] != 0 {
        slots' := slots'[i := slots[index[i] - 1]];
      }
      i := i + 1;
    }
    assert slots' == goal;
    l := Node256(count, slots');
  }

  method FirstFreeLoop<T>(slots: seq<Option<T>>) returns (pos: nat)
    ensures pos == FirstFree(slots)
  {
    pos := 0;
    while pos < |slots| && slots[pos].Some?
      invariant pos <= |slots|
      invariant forall j :: 0 <= j < pos ==> slots[j].Some?
    {
      pos := pos + 1;
    }
  }

  method AddTo48<T>(count: nat, index: seq<nat>, slots: seq<Option<T>>, c: Byte, x: T) returns (l: Layout<T>)
    requires Wf(Node48(count, index, slots))
    ensures l == Add48(count, index, slots, c, x)
  {
    if count < 48 {
      CountSomeBounds(slots);
      var pos := FirstFreeLoop(slots);
      l := Node48(count + 1, index[c := pos + 1], slots[pos := Some(x)]);
    } else {
      var grown := GrowTo256(count, index, slots);
      l := Add256(count, grown.slots, c, x);
    }
  }

  method AddTo16<T>(keys: seq<Byte>, kids: seq<T>, c: Byte, x: T) returns (l: Layout<T>)
    requires SmallOk(keys, kids) && |keys| <= 16
    ensures l == Add16(keys, kids, c, x)
  {
    if |keys| < 16 {
      var i := InsertPlaceLoop(keys, c);
      l := Node16(InsertAt(keys, i, c), InsertAt(kids, i, x));
    } else {
      Grow16Keeps(keys, kids);
      var grown := GrowTo48(keys, kids);
      l := AddTo48(grown.count, grown.index, grown.slots, c, x);
    }
  }

  /** Adding a child, in a larger layout when the old one is full. */
  method AddChild<T>(l: Layout<T>, c: Byte, x: T) returns (l': Layout<T>)
    requires Wf(l)
    ensures l' == Add(l, c, x)
  {
    match l
    case Node4(keys, kids) =>
      if |keys| < 4 {
        var i := InsertPlaceLoop(keys, c);
        l' := Node4(InsertAt(keys, i, c), InsertAt(kids, i, x));
      } else {
        l' := AddTo16(keys, kids, c, x);
      }
    case Node16(keys, kids) => l' := AddTo16(keys, kids, c, x);
    case Node48(count, index, slots) => l' := AddTo48(count, index, slots, c, x);
    case Node256(count, slots) => l' := Add256(count, slots, c, x);
  }

  // ----- Shrinking -----

  method ShrinkTo48<T>(count: nat, slots: seq<Option<T>>) returns (l: Layout<T>)
    requires |slots| == 256 && |Packed(slots, 256).1| <= 48
    ensures l == Shrink256(count, slots)
  {
    var index, kids: seq<T> := [], [];
    var i := 0;
    while i < 256
      invariant i <= 256 && (index, kids) == Packed(slots, i)
    {
      if slots[i].Some? {
        index, kids := index + [|kids| + 1], kids + [slots[i].value];
      } else {
        index := index + [0];
      }
      i := i + 1;
    }
    l := Node48(count, index, Padded(kids, 48));
  }

  method ShrinkTo16<T>(index: seq<nat>, slots: seq<Option<T>>) returns (l: Layout<T>)
    requires IndexOk(index, slots)
    ensures l == Shrink48(index, slots)
  {
    var keys: seq<Byte>, kids: seq<T> := [], [];
    var i := 0;
    while i < 256
      invariant i <= 256 && (keys, kids) == Listed(index, slots, i)
    {
      if index[i] != 0 {
        keys, kids := keys + [i], kids + [slots[index[i] - 1].value];
      }
      i := i + 1;
    }
    l := Node16(keys, kids);
  }

  /** Removing a child, in a smaller layout when few are left. */
  method RemoveChild<T>(l: Layout<T>, c: Byte) returns (l': Layout<T>)
    requires Wf(l) && Get(l, c).Some?
    ensures l' == Remove(l, c)
  {
    match l
    case Node4(keys, kids) =>
      var i := FindKeyLoop(keys, c);
      l' := Node4(RemoveAt(keys, i), RemoveAt(kids, i));
    case Node16(keys, kids) =>
      var i := FindKeyLoop(keys, c);
      var keys', kids' := RemoveAt(keys, i), RemoveAt(kids, i);
      l' := if |keys'| == 3 then Node4(keys', kids') else Node16(keys', kids');
    case Node48(count, index, slots) =>
      Remove48Keeps(count, index, slots, c);
      var index', slots' := index[c := 0], slots[index[c] - 1 := None];
      if count - 1 == 12 {
        l' := ShrinkTo16(index', slots');
      } else {
        l' := Node48(count - 1, index', slots');
      }
    case Node256(count, slots) =>
      var count', slots' := (count + 255) % 256, slots[c := None];
      if count' == 37 {
        Remove256Count(count, slots, c);
        Shrink256Keeps(slots');
        l' := ShrinkTo48(count', slots');
      } else {
        l' := Node256(count', slots');
      }
  }

  // ----- The lowest child -----

  method FirstChild<T>(l: Layout<T>) returns (r: T)
    requires Wf(l) && Size(l) > 0
    ensures Some(r) == First(l)
  {
    ghost var low := FirstIs(l);
    match l
    case Node4(_, kids) => r := kids[0];
    case Node16(_, kids) => r := kids[0];
    case Node48(_, index, slots) =>
      var i := 0;
      while index[i] == 0
        invariant i <= low && NextNonzero(index, 0) == NextNonzero(index, i)
        decreases 256 - i
      {
        i := i + 1;
      }
      r := slots[index[i] - 1].value;
    case Node256(_, slots) =>
      var i := 0;
      while slots[i].None?
        invariant i <= low && NextSome(slots, 0) == NextSome(slots, i)
        decreases 256 - i
      {
        i := i + 1;
      }
      r := slots[i].value;
  }
}
