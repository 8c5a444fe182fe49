/**
 The tree as a whole: `art_tree` with its root and its size refines a map from keys to values,
 over every run of insertions, deletions and searches.
 */
module ArtMap {

  import opened ArtLayout
  import opened ArtTree
  import opened ArtInsert
  import opened ArtDelete

  datatype State<V> = State(root: Option<Node<V>>, size: nat)

  datatype Op<V> =
    | OpInsert(key: Key, value: V)
    | OpInsertNoReplace(key: Key, value: V)
    | OpDelete(key: Key)
    | OpSearch(key: Key)

  // ----- The tree -----

  function InsertRoot<V>(root: Option<Node<V>>, k: Key, v: V, replace: bool, beyond: Beyond): (Node<V>, Option<V>)
    requires root.Some? ==> Shaped(root.value)
  {
    match root
    case None => (Leaf(k, v), None)
    case Some(n) => Insert(n, k, v, 0, replace, beyond)
  }

  function DeleteRoot<V>(root: Option<Node<V>>, k: Key, beyond: Beyond): (Option<Node<V>>, Option<V>)
    requires root.Some? ==> Shaped(root.value)
  {
    match root
    case None => (None, None)
    case Some(Leaf(key, value)) => if key == k then (None, Some(value)) else (root, None)
    case Some(n) =>
      var (n', found) := Delete(n, k, 0, beyond);
      (Some(n'), found)
  }

  /** The search from a node pointer on. */
  function SearchFrom<V>(next: Option<Node<V>>, k: Key, depth: nat, beyond: Beyond): Option<V> {
    if next.None? then None else Search(next.value, k, depth, beyond)
  }

  lemma SearchUnfold<V>(n: Node<V>, k: Key, d: nat, beyond: Beyond)
    ensures SearchFrom(Some(n), k, d, beyond) ==
            if n.Leaf? then (if n.key == k then Some(n.value) else None)
            else if PrefixFails(n, k, d, beyond) then None
            else SearchFrom(Get(n.body, SearchByte(k, d + n.partialLen)), k, d + n.partialLen + 1, beyond)
  {
  }

  /** One operation: the new tree and the returned value. */
  function Step<V>(s: State<V>, op: Op<V>, beyond: Beyond): (State<V>, Option<V>)
    requires s.root.Some? ==> Shaped(s.root.value)
    requires op.OpDelete? ==> DeleteRoot(s.root, op.key, beyond).1.Some? ==> s.size > 0
  {
    match op
    case OpDelete(k) =>
      var (root, found) := DeleteRoot(s.root, k, beyond);
      (State(root, if found.Some? then s.size - 1 else s.size), found)
    case OpSearch(k) => (s, SearchFrom(s.root, k, 0, beyond))
    case _ =>
      var (n, found) := InsertRoot(s.root, op.key, op.value, op.OpInsert?, beyond);
      (State(Some(n), if found.Some? then s.size else s.size + 1), found)
  }

  // ----- The map -----

  function Lookup<V>(m: map<Key, V>, k: Key): Option<V> {
    if k in m then Some(m[k]) else None
  }

  /** The same operation on a map: the new map and the returned value. */
  function MapStep<V>(m: map<Key, V>, op: Op<V>): (map<Key, V>, Option<V>) {
    match op
    case OpInsert(k, v) => (m[k := v], Lookup(m, k))
    case OpInsertNoReplace(k, v) => (if k in m then m else m[k := v], Lookup(m, k))
    case OpDelete(k) => (m - {k}, Lookup(m, k))
    case OpSearch(k) => (m, Lookup(m, k))
  }

  /** An inserted key is present already, or is neither a prefix nor an extension of a present key. */
  ghost predicate Allowed<V>(m: map<Key, V>, op: Op<V>) {
    (op.OpInsert? || op.OpInsertNoReplace?) ==> forall j :: j in m ==> j == op.key || Apart(j, op.key)
  }

  /** The leaves of the tree are the pairs of the map, and the size is their number. */
  ghost predicate Holds<V(!new)>(root: Option<Node<V>>, m: map<Key, V>) {
    match root
    case None => m == map[]
    case Some(n) => Inv(n, []) && forall k, v :: HasLeaf(n, k, v) <==> Lookup(m, k) == Some(v)
  }

  ghost predicate Represents<V(!new)>(s: State<V>, m: map<Key, V>) {
    && Holds(s.root, m) && s.size == |m|
  }

  // ----- One step -----

  lemma HoldsShaped<V(!new)>(root: Option<Node<V>>, m: map<Key, V>)
    requires Holds(root, m)
    ensures root.Some? ==> Shaped(root.value)
  {
    if root.Some? { InvShaped(root.value, []); }
  }

  lemma FitsMap<V(!new)>(n: Node<V>, m: map<Key, V>, op: Op<V>)
    requires Holds(Some(n), m) && Allowed(m, op) && (op.OpInsert? || op.OpInsertNoReplace?)
    ensures Fits(n, op.key)
  {
    hide Inv, HasLeaf, Apart;
    forall j, w | HasLeaf(n, j, w) ensures j == op.key || Apart(j, op.key) {
      assert Lookup(m, j) == Some(w);
    }
  }

  /** An insertion that meets its specification meets that of the map. */
  lemma InsertedHolds<V(!new)>(n: Node<V>, r: (Node<V>, Option<V>), m: map<Key, V>, op: Op<V>)
    requires op.OpInsert? || op.OpInsertNoReplace?
    requires Holds(Some(n), m) && Inserted(n, r, [], op.key, op.value, op.OpInsert?)
    ensures Holds(Some(r.0), MapStep(m, op).0) && r.1 == Lookup(m, op.key)
  {
    var k, m', v := op.key, MapStep(m, op).0, NewValue(r.1, op.value, op.OpInsert?);
    hide Inv, HasLeaf;
    OnlyValue(r.0, k, v);
    assert r.1 == Lookup(m, k) by {
      assert k in m ==> HasLeaf(n, k, m[k]);
    }
    hide NewValue;
    assert Lookup(m', k) == Some(v);
    forall j, w ensures HasLeaf(r.0, j, w) <==> Lookup(m', j) == Some(w) {
      assert j != k ==> Lookup(m', j) == Lookup(m, j);
    }
  }

  lemma InsertRefines<V(!new)>(root: Option<Node<V>>, m: map<Key, V>, op: Op<V>, beyond: Beyond)
    requires Holds(root, m) && Allowed(m, op) && (op.OpInsert? || op.OpInsertNoReplace?)
    requires root.Some? ==> Shaped(root.value)
    ensures var r := InsertRoot(root, op.key, op.value, op.OpInsert?, beyond);
            Holds(Some(r.0), MapStep(m, op).0) && r.1 == Lookup(m, op.key)
  {
    var k, m' := op.key, MapStep(m, op).0;
    if root.Some? {
      var n := root.value;
      assert Inv(n, k[..0]) by { assert k[..0] == []; }
      hide Inv, Insert, HasLeaf, Shaped, Fits, Inserted;
      FitsMap(n, m, op);
      InsertKeeps(n, k, op.value, 0, op.OpInsert?, beyond);
      assert k[..0] == [];
      hide Holds;
      InsertedHolds(n, Insert(n, k, op.value, 0, op.OpInsert?, beyond), m, op);
    }
  }

  lemma OnlyValue<V(!new)>(n: Node<V>, k: Key, v: V)
    requires Inv(n, []) && HasLeaf(n, k, v)
    ensures forall w :: HasLeaf(n, k, w) <==> w == v
  {
    hide Inv, HasLeaf;
    forall w | HasLeaf(n, k, w) ensures w == v { OneValue(n, [], k, v, w); }
  }

  lemma LeafMap<V(!new)>(l: Node<V>, m: map<Key, V>)
    requires l.Leaf? && Holds(Some(l), m)
    ensures m == map[l.key := l.value]
  {
    assert HasLeaf(l, l.key, l.value);
    assert forall j :: j in m ==> HasLeaf(l, j, m[j]);
  }

  lemma DeletedHolds<V(!new)>(n: Node<V>, r: (Node<V>, Option<V>), m: map<Key, V>, k: Key)
    requires Holds(Some(n), m) && Deleted(n, r, [], k)
    ensures Holds(Some(r.0), m - {k}) && r.1 == Lookup(m, k)
  {
    hide Inv, HasLeaf;
    assert k in m ==> HasLeaf(n, k, m[k]);
  }

  lemma DeleteRefines<V(!new)>(root: Option<Node<V>>, m: map<Key, V>, k: Key, beyond: Beyond)
    requires Holds(root, m)
    requires root.Some? ==> Shaped(root.value)
    ensures var (root', found) := DeleteRoot(root, k, beyond); Holds(root', m - {k}) && found == Lookup(m, k)
  {
    var (root', found) := DeleteRoot(root, k, beyond);
    if root.Some? && root.value.Leaf? {
      var l := root.value;
      LeafMap(l, m);
      assert k == l.key ==> m - {k} == map[];
      assert k != l.key ==> m - {k} == m;
    } else if root.Some? {
      hide Inv, Delete, HasLeaf, Shaped, Deleted;
      DeleteKeeps(root.value, [], k, beyond);
      hide Holds;
      DeletedHolds(root.value, Delete(root.value, k, 0, beyond), m, k);
    }
  }

  lemma SearchRefines<V(!new)>(root: Option<Node<V>>, m: map<Key, V>, k: Key, beyond: Beyond)
    requires Holds(root, m)
    ensures SearchFrom(root, k, 0, beyond) == Lookup(m, k)
  {
    if root.Some? {
      var r := SearchFrom(root, k, 0, beyond);
      hide Inv, Search, HasLeaf;
      if r.Some? { SearchIsLeaf(root.value, [], k, r.value, beyond); }
      if k in m { SearchIsLeaf(root.value, [], k, m[k], beyond); }
    }
  }

  lemma StepDefined<V(!new)>(s: State<V>, m: map<Key, V>, op: Op<V>, beyond: Beyond)
    requires Represents(s, m)
    ensures s.root.Some? ==> Shaped(s.root.value)
    ensures op.OpDelete? ==> DeleteRoot(s.root, op.key, beyond).1.Some? ==> s.size > 0
  {
    HoldsShaped(s.root, m);
    if op.OpDelete? {
      DeleteRefines(s.root, m, op.key, beyond);
      assert op.key in m ==> |m| > 0;
    }
  }

  lemma SizeAfter<V>(m: map<Key, V>, k: Key)
    ensures |m - {k}| == if k in m then |m| - 1 else |m|
  {
    assert (m - {k}).Keys == m.Keys - {k};
  }

  lemma SizeAfterInsert<V>(m: map<Key, V>, k: Key, v: V)
    ensures |m[k := v]| == if k in m then |m| else |m| + 1
  {
    assert m[k := v].Keys == m.Keys + {k};
  }

  /** Every operation returns what the map operation returns and changes the tree as it changes the map. */
  lemma StepRefines<V(!new)>(s: State<V>, m: map<Key, V>, op: Op<V>, beyond: Beyond)
    requires Represents(s, m) && Allowed(m, op)
    requires s.root.Some? ==> Shaped(s.root.value)
    requires op.OpDelete? ==> DeleteRoot(s.root, op.key, beyond).1.Some? ==> s.size > 0
    ensures var (s', r), (m', r') := Step(s, op, beyond), MapStep(m, op); Represents(s', m') && r == r'
  {
    hide Holds, InsertRoot, DeleteRoot, SearchFrom, Allowed, Shaped;
    match op
    case OpDelete(k) =>
      DeleteRefines(s.root, m, k, beyond);
      SizeAfter(m, k);
    case OpSearch(k) => SearchRefines(s.root, m, k, beyond);
    case OpInsert(k, v) =>
      InsertRefines(s.root, m, op, beyond);
      SizeAfterInsert(m, k, v);
    case OpInsertNoReplace(k, v) =>
      InsertRefines(s.root, m, op, beyond);
      SizeAfterInsert(m, k, v);
  }

  /** Two related keys of a map that a tree holds. */
  lemma HeldApart<V(!new)>(n: Node<V>, m: map<Key, V>, j: Key, k: Key)
    requires Holds(Some(n), m) && j in m && k in m && j != k
    ensures Apart(j, k)
  {
    hide Inv, HasLeaf, Apart;
    assert HasLeaf(n, j, m[j]) && HasLeaf(n, k, m[k]);
    StoredApart(n, [], j, m[j], k, m[k]);
  }

  /** An insertion that is not allowed finds nothing, as the map does, but no tree holds the new map. */
  lemma InsertFails<V(!new)>(root: Option<Node<V>>, m: map<Key, V>, op: Op<V>, beyond: Beyond)
    requires Holds(root, m) && !Allowed(m, op)
    requires root.Some? ==> Shaped(root.value)
    ensures InsertRoot(root, op.key, op.value, op.OpInsert?, beyond).1 == Lookup(m, op.key)
    ensures forall n :: !Holds(Some(n), MapStep(m, op).0)
  {
    hide Inv, HasLeaf, Insert, Shaped, Apart;
    var k, n := op.key, root.value;
    var j :| j in m && j != k && !Apart(j, k);
    if k in m {
      HeldApart(n, m, j, k);
      assert false;
    }
    InsertFinds(n, k, op.value, 0, op.OpInsert?, beyond);
    forall n' ensures !Holds(Some(n'), MapStep(m, op).0) {
      if Holds(Some(n'), MapStep(m, op).0) {
        HeldApart(n', MapStep(m, op).0, j, k);
        assert false;
      }
    }
  }

  /**
   Every operation returns what the map operation returns; the tree then holds the new map if and
   only if the operation is not the insertion of a prefix or extension of a present key.
   */
  lemma StepRefinesExactly<V(!new)>(s: State<V>, m: map<Key, V>, op: Op<V>, beyond: Beyond)
    requires Represents(s, m)
    requires s.root.Some? ==> Shaped(s.root.value)
    requires op.OpDelete? ==> DeleteRoot(s.root, op.key, beyond).1.Some? ==> s.size > 0
    ensures var (s', r), (m', r') := Step(s, op, beyond), MapStep(m, op);
            r == r' && (Represents(s', m') <==> Allowed(m, op))
  {
    hide Holds, InsertRoot, DeleteRoot, SearchFrom, Shaped, Lookup;
    if Allowed(m, op) {
      StepRefines(s, m, op, beyond);
    } else {
      InsertFails(s.root, m, op, beyond);
    }
  }

  // ----- Every run -----

  /** The returned values of a run on the map. */
  function MapRun<V>(m: map<Key, V>, ops: seq<Op<V>>): (outs: seq<Option<V>>)
    ensures |outs| == |ops|
    decreases |ops|
  {
    if ops == [] then [] else [MapStep(m, ops[0]).1] + MapRun(MapStep(m, ops[0]).0, ops[1..])
  }

  /** All insertions of a run are allowed when they happen. */
  ghost predicate RunAllowed<V>(m: map<Key, V>, ops: seq<Op<V>>)
    decreases |ops|
  {
    ops == [] || (Allowed(m, ops[0]) && RunAllowed(MapStep(m, ops[0]).0, ops[1..]))
  }

  /** The number of operations before the first that is not allowed. */
  ghost function AllowedUpTo<V>(m: map<Key, V>, ops: seq<Op<V>>): (n: nat)
    ensures n <= |ops| && (n == |ops| <==> RunAllowed(m, ops))
    decreases |ops|
  {
    if ops == [] || !Allowed(m, ops[0]) then 0 else 1 + AllowedUpTo(MapStep(m, ops[0]).0, ops[1..])
  }

  /** The operation can run on the tree. */
  ghost predicate Defined<V>(s: State<V>, op: Op<V>, beyond: Beyond) {
    && (s.root.Some? ==> Shaped(s.root.value))
    && (op.OpDelete? ==> DeleteRoot(s.root, op.key, beyond).1.Some? ==> s.size > 0)
  }

  /** The operation can run on the tree and leads to the other state. */
  ghost predicate Leads<V>(s: State<V>, op: Op<V>, beyond: Beyond, s': State<V>) {
    Defined(s, op, beyond) && s' == Step(s, op, beyond).0
  }

  lemma FirstLeads<V>(k: Key, v: V, beyond: Beyond)
    ensures Leads(State(None, 0), OpInsert(k, v), beyond, State(Some(Leaf(k, v)), 1))
  {
  }

  lemma InsertLeads<V>(n: Node<V>, size: nat, k: Key, v: V, beyond: Beyond, m: Node<V>)
    requires Shaped(n) && Insert(n, k, v, 0, true, beyond) == (m, None)
    ensures Leads(State(Some(n), size), OpInsert(k, v), beyond, State(Some(m), size + 1))
  {
    hide Shaped, Insert;
  }

  /** A run of the tree: the states it goes through and the values it returns, with arbitrary memory past each key. */
  ghost predicate IsRun<V>(s: State<V>, ops: seq<Op<V>>, beyonds: seq<Beyond>, outs: seq<Option<V>>)
    decreases |ops|
  {
    && |beyonds| == |outs| == |ops|
    && (ops != [] ==>
          && Defined(s, ops[0], beyonds[0])
          && var (s', r) := Step(s, ops[0], beyonds[0]);
             outs[0] == r && IsRun(s', ops[1..], beyonds[1..], outs[1..]))
  }

  /**
   Every run of the tree from a represented map returns what the map returns, up to and including
   the first insertion that is not allowed.
   */
  lemma {:induction false} RunRefines<V(!new)>(s: State<V>, m: map<Key, V>, ops: seq<Op<V>>, beyonds: seq<Beyond>, outs: seq<Option<V>>)
    requires Represents(s, m) && IsRun(s, ops, beyonds, outs)
    ensures forall i :: 0 <= i < |ops| && i <= AllowedUpTo(m, ops) ==> outs[i] == MapRun(m, ops)[i]
    ensures RunAllowed(m, ops) ==> outs == MapRun(m, ops)
    decreases |ops|
  {
    hide Represents, Allowed, Step, MapStep, Shaped, DeleteRoot;
    if ops != [] {
      var s1, m1 := Step(s, ops[0], beyonds[0]).0, MapStep(m, ops[0]).0;
      StepRefinesExactly(s, m, ops[0], beyonds[0]);
      if Allowed(m, ops[0]) {
        RunRefines(s1, m1, ops[1..], beyonds[1..], outs[1..]);
        forall i | 0 <= i < |ops| && i <= AllowedUpTo(m, ops) ensures outs[i] == MapRun(m, ops)[i] {
          assert i > 0 ==> outs[1..][i - 1] == MapRun(m1, ops[1..])[i - 1];
        }
      }
    }
  }

  /** Every operation of the run can run, and leaves a tree that holds the map. */
  ghost predicate RunHolds<V(!new)>(s: State<V>, m: map<Key, V>, ops: seq<Op<V>>, beyonds: seq<Beyond>)
    requires |beyonds| == |ops|
    decreases |ops|
  {
    Represents(s, m) &&
    (ops != [] ==>
       && Defined(s, ops[0], beyonds[0])
       && RunHolds(Step(s, ops[0], beyonds[0]).0, MapStep(m, ops[0]).0, ops[1..], beyonds[1..]))
  }

  /**
   A run can run to its end with a sound tree that holds the map after every operation, if and only
   if every inserted key is present at that time or neither a prefix nor an extension of a present key.
   */
  lemma {:induction false} RunsExactly<V(!new)>(s: State<V>, m: map<Key, V>, ops: seq<Op<V>>, beyonds: seq<Beyond>)
    requires Represents(s, m) && |beyonds| == |ops|
    ensures RunHolds(s, m, ops, beyonds) <==> RunAllowed(m, ops)
    decreases |ops|
  {
    hide Represents, Allowed, Step, MapStep, Shaped, DeleteRoot;
    if ops != [] {
      StepDefined(s, m, ops[0], beyonds[0]);
      StepRefinesExactly(s, m, ops[0], beyonds[0]);
      if Allowed(m, ops[0]) {
        RunsExactly(Step(s, ops[0], beyonds[0]).0, MapStep(m, ops[0]).0, ops[1..], beyonds[1..]);
      } else {
        NotHeld(Step(s, ops[0], beyonds[0]).0, MapStep(m, ops[0]).0, ops[1..], beyonds[1..]);
      }
    }
  }

  /** Such a run returns exactly what the map returns. */
  lemma {:induction false} RunExists<V(!new)>(s: State<V>, m: map<Key, V>, ops: seq<Op<V>>, beyonds: seq<Beyond>)
    requires Represents(s, m) && |beyonds| == |ops|
    ensures RunAllowed(m, ops) ==> IsRun(s, ops, beyonds, MapRun(m, ops))
    decreases |ops|
  {
    hide Represents, Allowed, Step, MapStep, Shaped, DeleteRoot;
    if ops != [] && RunAllowed(m, ops) {
      StepDefined(s, m, ops[0], beyonds[0]);
      StepRefines(s, m, ops[0], beyonds[0]);
      RunExists(Step(s, ops[0], beyonds[0]).0, MapStep(m, ops[0]).0, ops[1..], beyonds[1..]);
      assert MapRun(m, ops)[1..] == MapRun(MapStep(m, ops[0]).0, ops[1..]);
    }
  }

  lemma NotHeld<V(!new)>(s: State<V>, m: map<Key, V>, ops: seq<Op<V>>, beyonds: seq<Beyond>)
    requires |beyonds| == |ops| && !Represents(s, m)
    ensures !RunHolds(s, m, ops, beyonds)
  {
  }
}
