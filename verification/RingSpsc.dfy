/**
 The bounded ring of `ring_bounded_queue_spsc_generic.h`: 32-bit indices that wrap, masked into a
 buffer whose size is a power of two.  First the ring as an object used by one caller, then a
 producer and a consumer stepping independently.
 */
module RingSpsc {

  import opened Modulo
  import opened ShardWord
  import opened Pow2Round

  // ----- Wrapping indices -----

  /** What a 32-bit result keeps. */
  function Wrap32(n: int): nat { n % Pow2(32) }

  /** A buffer size: a power of two that fits 32 bits, or 0. */
  predicate SizeOk(size: nat) { size == 0 || exists k: nat :: k <= 31 && size == Pow2(k) }

  /** The buffer slot of an index. */
  function At(i: nat, size: nat): nat
    requires i < Pow2(64) && 0 < size <= Pow2(64)
  {
    And(i, size - 1)
  }

  /** A 32-bit index that is masked is as good as an unbounded one. */
  lemma AtIs(n: nat, size: nat)
    requires SizeOk(size) && size > 0
    ensures Wrap32(n) < Pow2(64) && size <= Pow2(64) && At(Wrap32(n), size) == n % size < size
  {
    hide Pow2, And;
    var k: nat :| k <= 31 && size == Pow2(k);
    Pow2Grows(k, 32);
    Pow2Grows(32, 64);
    Pow2Divides(k, 32);
    var q: nat :| Pow2(32) == q * Pow2(k);
    WrapDivides(n, q, Pow2(k));
    MaskIsMod(Wrap32(n), k);
  }

  lemma WrapDivides(n: nat, q: nat, m: nat)
    requires q > 0 && m > 0
    ensures n % (q * m) % m == n % m
  {
    var w := q * m;
    assert w > 0 by { MulOrder(m, q); }
    assert n == w * (n / w) + n % w;
    assert w * (n / w) == ((n / w) * q) * m;
    AddMultiple(n % w, (n / w) * q, m);
  }

  lemma WrapNext(n: nat)
    ensures Wrap32(Wrap32(n) + 1) == Wrap32(n + 1)
  {
    hide Pow2;
    ModNext(n, Pow2(32));
  }

  /** The difference of two wrapped counters is the difference of the counters. */
  lemma WrapDiff(e: nat, d: nat)
    requires d <= e <= d + Pow2(31)
    ensures Wrap32(Wrap32(e) - Wrap32(d)) == e - d
    ensures Wrap32(e) == Wrap32(d) <==> e == d
  {
    hide Pow2;
    DoubleOf(31);
    ModDiff(e, d, Pow2(32));
  }

  lemma ModDiff(e: nat, d: nat, m: nat)
    requires d <= e < d + m
    ensures (e % m - d % m) % m == e - d
    ensures e % m == d % m <==> e == d
  {
    assert e == m * (e / m) + e % m;
    assert d == m * (d / m) + d % m;
    var q := d / m - e / m;
    assert e % m - d % m == m * q + (e - d);
    ModUnique(e % m - d % m, m, q, e - d);
    if e % m == d % m { assert m * q == d - e; MulOrder(m, q); }
  }

  lemma ApartInBuffer(i: nat, j: nat, size: nat)
    requires i < j < i + size
    ensures i % size != j % size
  {
    ModDiff(j, i, size);
  }

  // ----- The ring -----

  /** The buffer holds the values put but not got, each at its own slot. */
  ghost predicate Unread<V(!new)>(items: seq<V>, size: nat, put: seq<V>, got: nat)
    requires |items| == size
  {
    forall j :: got <= j < |put| ==> size > 0 && items[j % size] == put[j]
  }

  ghost predicate IsRing<V(!new)>(size: nat, head: nat, tail: nat, items: seq<V>, put: seq<V>, got: nat) {
    && SizeOk(size) && |items| == size
    && got <= |put| <= got + size
    && head == Wrap32(got) && tail == Wrap32(|put|)
    && Unread(items, size, put, got)
  }

  lemma SizeBound(size: nat)
    requires SizeOk(size)
    ensures size <= Pow2(31)
  {
    hide Pow2;
    if size > 0 {
      var k: nat :| k <= 31 && size == Pow2(k);
      Pow2Grows(k, 31);
    }
  }

  /** The length and the empty and full tests, on 32-bit indices. */
  lemma LengthIs<V(!new)>(size: nat, head: nat, tail: nat, items: seq<V>, put: seq<V>, got: nat)
    requires IsRing(size, head, tail, items, put, got)
    ensures Wrap32(tail - head) == |put| - got
    ensures head == tail <==> |put| == got
  {
    hide Pow2, SizeOk, Unread, Wrap32;
    SizeBound(size);
    WrapDiff(|put|, got);
  }

  /** Writing at the tail of a ring that is not full overwrites no unread value. */
  lemma WriteKeeps<V(!new)>(items: seq<V>, size: nat, put: seq<V>, got: nat, v: V)
    requires |items| == size && got <= |put| < got + size && Unread(items, size, put, got)
    ensures Unread(items[|put| % size := v], size, put, got)
    ensures items[|put| % size := v][|put| % size] == v
  {
    forall j | got <= j < |put| ensures items[|put| % size := v][j % size] == put[j] {
      ApartInBuffer(j, |put|, size);
    }
  }

  lemma PutKeeps<V(!new)>(items: seq<V>, size: nat, put: seq<V>, got: nat, v: V)
    requires |items| == size && size > 0 && Unread(items, size, put, got) && items[|put| % size] == v
    ensures Unread(items, size, put + [v], got)
  {
  }

  /** The 32-bit size for a requested size: the least power of two not below it, or 0 if that does not fit. */
  method RingSize(requested: nat) returns (size: nat)
    requires requested < Pow2(32)
    ensures SizeOk(size)
    ensures 1 <= requested <= Pow2(31) ==> IsNextPow2(requested, size)
    ensures requested == 0 || requested > Pow2(31) ==> size == 0
  {
    hide Pow2, SizeOk, IsNextPow2, Wrap32;
    Pow2Grows(32, 63);
    DoubleOf(63);
    var next := Next(requested);
    RingSizeOk(requested, next);
    size := Wrap32(next);
  }

  lemma RingSizeOk(requested: nat, next: nat)
    requires requested < Pow2(32)
    requires if requested == 0 then next == 0 else IsNextPow2(requested, next)
    ensures SizeOk(Wrap32(next))
    ensures 1 <= requested <= Pow2(31) ==> Wrap32(next) == next
    ensures requested == 0 || requested > Pow2(31) ==> Wrap32(next) == 0
  {
    hide Pow2;
    DoubleOf(31);
    ModIs(next, Pow2(32));
    if requested > 0 {
      var e: nat :| next == Pow2(e);
      assert requested <= Pow2(32) && next <= Pow2(32);
      if requested <= Pow2(31) {
        assert next <= Pow2(31);
        PowerOrder(32, e);
        if e == 32 { assert false; }
        PowerAtMost(e);
      } else {
        PowerOrder(31, e);
        Pow2Grows(32, e);
      }
    }
  }

  lemma PowerAtMost(e: nat)
    requires Pow2(e) <= Pow2(31)
    ensures e <= 31
  {
    hide Pow2;
    if e > 31 {
      Pow2Grows(32, e);
      DoubleOf(31);
      assert false;
    }
  }

  class Ring<V(0, !new)> {
    var size: nat
    var head: nat
    var tail: nat
    var items: array<V>
    ghost var put: seq<V>
    ghost var got: nat

    ghost predicate Valid()
      reads this, items
    {
      IsRing(size, head, tail, items[..], put, got)
    }

    /** The values in the ring, oldest first. */
    ghost function Contents(): seq<V>
      reads this, items
      requires Valid()
    {
      put[got..]
    }

    constructor (requested: nat)
      requires requested < Pow2(32)
      ensures Valid() && Contents() == [] && fresh(items)
      ensures 1 <= requested <= Pow2(31) ==> IsNextPow2(requested, size)
      ensures requested == 0 || requested > Pow2(31) ==> size == 0
    {
      var n := RingSize(requested);
      size, head, tail, put, got := n, 0, 0, [], 0;
      items := new V[n];
      new;
      assert Wrap32(0) == 0;
    }

    method Length() returns (n: nat)
      requires Valid()
      ensures n == |Contents()| <= size
    {
      LengthIs(size, head, tail, items[..], put, got);
      n := Wrap32(tail - head);
    }

    method Peek() returns (found: bool, v: V)
      requires Valid()
      ensures found <==> Contents() != []
      ensures found ==> v == Contents()[0]
    {
      LengthIs(size, head, tail, items[..], put, got);
      found := head != tail;
      v := *;
      if found {
        AtIs(got, size);
        v := items[At(head, size)];
        assert items[..][got % size] == put[got];
      }
    }

    method Enqueue(v: V) returns (ok: bool)
      requires Valid()
      modifies this, items
      ensures Valid() && items == old(items) && size == old(size)
      ensures ok <==> |old(Contents())| < size
      ensures Contents() == if ok then old(Contents()) + [v] else old(Contents())
    {
      hide Wrap32, At, Pow2;
      LengthIs(size, head, tail, items[..], put, got);
      if Wrap32(tail - head) == size { return false; }
      AtIs(|put|, size);
      WriteKeeps(items[..], size, put, got, v);
      ghost var before := items[..];
      items[At(tail, size)] := v;
      assert items[..] == before[|put| % size := v];
      PutKeeps(items[..], size, put, got, v);
      WrapNext(|put|);
      tail := Wrap32(tail + 1);
      put := put + [v];
      ok := true;
    }

    method Dequeue() returns (found: bool, v: V)
      requires Valid()
      modifies this
      ensures Valid() && items == old(items) && size == old(size)
      ensures found <==> old(Contents()) != []
      ensures if found then old(Contents()) == [v] + Contents() else Contents() == old(Contents())
    {
      hide Wrap32, At, Pow2;
      LengthIs(size, head, tail, items[..], put, got);
      v := *;
      if head == tail { return false, v; }
      AtIs(got, size);
      v := items[At(head, size)];
      assert items[..][got % size] == put[got];
      WrapNext(got);
      head := Wrap32(head + 1);
      got := got + 1;
      found := true;
    }
  }

  // ----- One producer and one consumer -----

  datatype Producer<V> = PIdle | PWrite(v: V) | PTail(v: V)

  datatype Consumer<V> = CIdle | CRead | CHead(v: V)

  datatype State<V> = State(
    size: nat, head: nat, tail: nat, items: seq<V>, producer: Producer<V>, consumer: Consumer<V>, put: seq<V>, got: seq<V>)

  datatype Step<V> = Enqueue(v: V) | Produce | Dequeue | Consume

  predicate Enabled<V>(s: State<V>, step: Step<V>) {
    match step
    case Enqueue(_) => s.producer.PIdle?
    case Produce =>
      !s.producer.PIdle? && 0 < s.size <= Pow2(64) && s.tail < Pow2(64) && At(s.tail, s.size) < |s.items|
    case Dequeue => s.consumer.CIdle?
    case Consume =>
      !s.consumer.CIdle? && 0 < s.size <= Pow2(64) && s.head < Pow2(64) && At(s.head, s.size) < |s.items|
  }

  /** One access to a shared location at a time: the other side's index, the slot, the own index. */
  function Apply<V>(s: State<V>, step: Step<V>): State<V>
    requires Enabled(s, step)
  {
    match step
    case Enqueue(v) => if Wrap32(s.tail - s.head) == s.size then s else s.(producer := PWrite(v))
    case Produce =>
      (match s.producer
       case PWrite(v) => s.(items := s.items[At(s.tail, s.size) := v], producer := PTail(v))
       case PTail(v) => s.(tail := Wrap32(s.tail + 1), put := s.put + [v], producer := PIdle))
    case Dequeue => if s.head == s.tail then s else s.(consumer := CRead)
    case Consume =>
      (match s.consumer
       case CRead => s.(consumer := CHead(s.items[At(s.head, s.size)]))
       case CHead(v) => s.(head := Wrap32(s.head + 1), got := s.got + [v], consumer := CIdle))
  }

  predicate Initial<V>(s: State<V>) {
    && SizeOk(s.size) && |s.items| == s.size && s.head == 0 && s.tail == 0
    && s.producer == PIdle && s.consumer == CIdle && s.put == [] && s.got == []
  }

  ghost predicate Inv<V(!new)>(s: State<V>) {
    && IsRing(s.size, s.head, s.tail, s.items, s.put, |s.got|)
    && s.got <= s.put
    && (!s.producer.PIdle? ==> |s.put| < |s.got| + s.size)
    && (s.producer.PTail? ==> s.items[|s.put| % s.size] == s.producer.v)
    && (!s.consumer.CIdle? ==> |s.got| < |s.put|)
    && (s.consumer.CHead? ==> s.put[|s.got|] == s.consumer.v)
  }

  lemma InitialInv<V(!new)>(s: State<V>)
    requires Initial(s)
    ensures Inv(s)
  {
    assert Wrap32(0) == 0;
  }

  lemma ProducerKeeps<V(!new)>(s: State<V>, step: Step<V>)
    requires Inv(s) && Enabled(s, step) && (step.Enqueue? || step.Produce?)
    ensures Inv(Apply(s, step))
  {
    hide Wrap32, At, Pow2, SizeOk;
    LengthIs(s.size, s.head, s.tail, s.items, s.put, |s.got|);
    if step.Produce? {
      AtIs(|s.put|, s.size);
      if s.producer.PWrite? {
        WriteKeeps(s.items, s.size, s.put, |s.got|, s.producer.v);
      } else {
        PutKeeps(s.items, s.size, s.put, |s.got|, s.producer.v);
        WrapNext(|s.put|);
      }
    }
  }

  lemma ConsumerKeeps<V(!new)>(s: State<V>, step: Step<V>)
    requires Inv(s) && Enabled(s, step) && (step.Dequeue? || step.Consume?)
    ensures Inv(Apply(s, step))
  {
    hide Wrap32, At, Pow2, SizeOk;
    LengthIs(s.size, s.head, s.tail, s.items, s.put, |s.got|);
    if step.Consume? {
      AtIs(|s.got|, s.size);
      if s.consumer.CRead? {
        assert s.items[|s.got| % s.size] == s.put[|s.got|];
      } else {
        WrapNext(|s.got|);
      }
    }
  }

  /** Either side can make a call when it is in none, and is never refused a step of a call it has begun. */
  lemma NeverStuck<V(!new)>(s: State<V>)
    requires Inv(s)
    ensures if s.producer.PIdle? then forall v :: Enabled(s, Enqueue(v)) else Enabled(s, Produce)
    ensures if s.consumer.CIdle? then Enabled(s, Dequeue) else Enabled(s, Consume)
  {
    hide Wrap32, At, Pow2, SizeOk;
    if s.size > 0 {
      AtIs(|s.put|, s.size);
      AtIs(|s.got|, s.size);
    }
  }

  /** A write touches no slot that holds an unread value. */
  lemma NoOverwrite<V(!new)>(s: State<V>, j: nat)
    requires Inv(s) && Enabled(s, Produce) && |s.got| <= j < |s.put|
    ensures Apply(s, Produce).items[j % s.size] == s.items[j % s.size]
  {
    hide Wrap32, At, Pow2, SizeOk;
    AtIs(|s.put|, s.size);
    ApartInBuffer(j, |s.put|, s.size);
  }

  ghost predicate NextAt<V(!new)>(run: seq<State<V>>, steps: seq<Step<V>>, i: nat)
    requires i < |steps| && |run| == |steps| + 1
  {
    Enabled(run[i], steps[i]) && run[i + 1] == Apply(run[i], steps[i])
  }

  ghost predicate IsRun<V(!new)>(run: seq<State<V>>, steps: seq<Step<V>>) {
    && |run| == |steps| + 1 && Initial(run[0])
    && forall i :: 0 <= i < |steps| ==> NextAt(run, steps, i)
  }

  lemma {:induction false} RunInv<V(!new)>(run: seq<State<V>>, steps: seq<Step<V>>, i: nat)
    requires IsRun(run, steps) && i < |run|
    ensures Inv(run[i])
  {
    hide Inv, Initial, Enabled, Apply;
    if i == 0 {
      InitialInv(run[0]);
    } else {
      RunInv(run, steps, i - 1);
      assert NextAt(run, steps, i - 1);
      if steps[i - 1].Enqueue? || steps[i - 1].Produce? {
        ProducerKeeps(run[i - 1], steps[i - 1]);
      } else {
        ConsumerKeeps(run[i - 1], steps[i - 1]);
      }
    }
  }

  /** In every state of every run, what came out is a prefix of what went in, at most `size` values behind. */
  lemma RunsAreFifo<V(!new)>(run: seq<State<V>>, steps: seq<Step<V>>, i: nat)
    requires IsRun(run, steps) && i < |run|
    ensures var s := run[i]; s.got <= s.put && Wrap32(s.tail - s.head) == |s.put| - |s.got| <= s.size
  {
    hide Initial, Enabled, Apply, Wrap32, Pow2, SizeOk, Unread;
    RunInv(run, steps, i);
    var s := run[i];
    LengthIs(s.size, s.head, s.tail, s.items, s.put, |s.got|);
  }

  // ----- What the calls are given and what they answer -----

  /** The value of an enqueue under way. */
  function InFlight<V>(p: Producer<V>): seq<V> { if p.PIdle? then [] else [p.v] }

  /** The enqueue is not refused: fewer than `size` values are in the ring. */
  predicate Room<V>(s: State<V>) { |s.put| < |s.got| + s.size }

  /** The argument of an accepted enqueue, and nothing else, goes in. */
  lemma StepPuts<V(!new)>(s: State<V>, step: Step<V>)
    requires Inv(s) && Enabled(s, step)
    ensures var s' := Apply(s, step);
            s'.put + InFlight(s'.producer) ==
            s.put + InFlight(s.producer) + (if step.Enqueue? && Room(s) then [step.v] else [])
  {
    hide Wrap32, At, Pow2, SizeOk, Unread;
    LengthIs(s.size, s.head, s.tail, s.items, s.put, |s.got|);
  }

  /** An enqueue is refused, and changes nothing, if and only if the ring is full. */
  lemma EnqueueRefused<V(!new)>(s: State<V>, v: V)
    requires Inv(s) && Enabled(s, Enqueue(v))
    ensures Apply(s, Enqueue(v)) == s <==> !Room(s)
    ensures Room(s) ==> Apply(s, Enqueue(v)) == s.(producer := PWrite(v))
  {
    hide Wrap32, At, Pow2, SizeOk, Unread;
    LengthIs(s.size, s.head, s.tail, s.items, s.put, |s.got|);
  }

  /** A dequeue is refused, and changes nothing, if and only if the ring is empty. */
  lemma DequeueRefused<V(!new)>(s: State<V>)
    requires Inv(s) && Enabled(s, Dequeue)
    ensures Apply(s, Dequeue) == s <==> |s.got| == |s.put|
    ensures |s.got| != |s.put| ==> Apply(s, Dequeue) == s.(consumer := CRead)
  {
    hide Wrap32, At, Pow2, SizeOk, Unread;
    LengthIs(s.size, s.head, s.tail, s.items, s.put, |s.got|);
  }

  /** The arguments of the enqueues among the first `i` steps that were not refused. */
  function Accepted<V>(run: seq<State<V>>, steps: seq<Step<V>>, i: nat): seq<V>
    requires i <= |steps| && |run| == |steps| + 1
  {
    if i == 0 then []
    else Accepted(run, steps, i - 1) + (if steps[i - 1].Enqueue? && Room(run[i - 1]) then [steps[i - 1].v] else [])
  }

  /** The number of dequeues among the first `i` steps that were not refused. */
  function Served<V>(run: seq<State<V>>, steps: seq<Step<V>>, i: nat): nat
    requires i <= |steps| && |run| == |steps| + 1
  {
    if i == 0 then 0
    else Served(run, steps, i - 1) + (if steps[i - 1].Dequeue? && |run[i - 1].got| != |run[i - 1].put| then 1 else 0)
  }

  function Serving<V>(c: Consumer<V>): nat { if c.CIdle? then 0 else 1 }

  lemma StepServes<V(!new)>(s: State<V>, step: Step<V>)
    requires Inv(s) && Enabled(s, step)
    ensures var s' := Apply(s, step);
            |s'.got| + Serving(s'.consumer) ==
            |s.got| + Serving(s.consumer) + (if step.Dequeue? && |s.got| != |s.put| then 1 else 0)
  {
    hide Wrap32, At, Pow2, SizeOk, Unread;
    LengthIs(s.size, s.head, s.tail, s.items, s.put, |s.got|);
  }

  lemma {:induction false} RunAccepts<V(!new)>(run: seq<State<V>>, steps: seq<Step<V>>, i: nat)
    requires IsRun(run, steps) && i < |run|
    ensures Accepted(run, steps, i) == run[i].put + InFlight(run[i].producer)
    ensures Served(run, steps, i) == |run[i].got| + Serving(run[i].consumer)
  {
    hide Inv, Enabled, Apply, InFlight, Serving;
    if i == 0 {
      NoneYet(run[0]);
    } else {
      RunAccepts(run, steps, i - 1);
      RunInv(run, steps, i - 1);
      assert NextAt(run, steps, i - 1);
      StepPuts(run[i - 1], steps[i - 1]);
      StepServes(run[i - 1], steps[i - 1]);
    }
  }

  lemma NoneYet<V>(s: State<V>)
    requires Initial(s)
    ensures s.put + InFlight(s.producer) == [] && |s.got| + Serving(s.consumer) == 0
  {
  }

  /**
   In every state of every run: what the dequeues returned is a prefix of what the accepted enqueues
   were given, one value for each dequeue that was not refused and has ended.
   */
  lemma CallsAreFifo<V(!new)>(run: seq<State<V>>, steps: seq<Step<V>>, i: nat)
    requires IsRun(run, steps) && i < |run|
    ensures var s := run[i]; s.got <= s.put <= Accepted(run, steps, i) && Wrap32(s.tail - s.head) == |s.put| - |s.got| <= s.size
    ensures run[i].consumer.CIdle? ==> |run[i].got| == Served(run, steps, i)
    ensures run[i].producer.PIdle? ==> run[i].put == Accepted(run, steps, i)
  {
    hide Initial, Enabled, Apply, Wrap32, Pow2, SizeOk, Unread, Accepted, Served;
    RunAccepts(run, steps, i);
    RunsAreFifo(run, steps, i);
  }
}
