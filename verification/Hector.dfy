/**
 The growable array behind batches and the job queue (src/aids.c). `hector_splice` moves
 `length - n + count` elements, more than the live tail, so it can leave its block; here it
 reports that instead, and says exactly when. Then runs of pushes and head removals, which is
 how the job queue uses it.
 */
module HectorArray {
  import opened Prelude

  /** The indices `hector_splice` reads: from n + count, `length - n + count` of them. */
  function MoveEnd(length: nat, n: nat, count: nat): int { n + count + (length - n + count) }

  /** Whether a removal moves anything: not when it is empty, refused, or at the tail. */
  predicate Moves(length: nat, capacity: nat, n: nat, count: nat) {
    count != 0 && n + count <= capacity && n != length - count
  }

  /** The removal touches only its own block. */
  predicate InBounds(length: nat, capacity: nat, n: nat, count: nat) {
    Moves(length, capacity, n, count) ==> MoveEnd(length, n, count) <= capacity
  }

  /** A removal inside the live part touches only its own block exactly when it moves nothing or has slack. */
  lemma SpliceInBoundsExactlyWhen(length: nat, capacity: nat, n: nat, count: nat)
    requires n + count <= length <= capacity
    ensures InBounds(length, capacity, n, count) <==> count == 0 || n + count == length || length + 2 * count <= capacity
  {
  }

  /** Length and capacity. */
  datatype Shape = Shape(length: nat, capacity: nat) {
    function Pushed(): Shape { Shape(length + 1, if length == capacity then 2 * capacity else capacity) }

    function Shrunk(): Shape { if length < capacity / 3 then Shape(length, capacity / 2) else this }

    function Spliced(count: nat): Shape
      requires count <= length
    {
      if count == 0 then this else Shape(length - count, capacity).Shrunk()
    }
  }

  class Hector<T(0)> {
    var mem: array<T>
    var length: nat

    ghost predicate Valid()
      reads this
    {
      length <= mem.Length && mem.Length >= 1
    }

    ghost function Contents(): (s: seq<T>)
      requires Valid()
      reads this, mem
    {
      mem[..length]
    }

    ghost function Size(): Shape
      reads this
    {
      Shape(length, mem.Length)
    }

    constructor (capacity: nat)
      requires capacity >= 1
      ensures Valid() && fresh(mem) && Contents() == [] && Size() == Shape(0, capacity)
    {
      mem := new T[capacity];
      length := 0;
    }

    method Resize(capacity: nat)
      requires Valid() && length <= capacity && capacity >= 1
      modifies this`mem
      ensures Valid() && fresh(mem) && mem.Length == capacity && Contents() == old(Contents())
    {
      var before := mem;
      var block := new T[capacity];
      forall i | 0 <= i < length { block[i] := before[i]; }
      mem := block;
      assert mem[..length] == before[..length];
    }

    method Push(item: T)
      requires Valid()
      modifies this, mem
      ensures Valid() && (mem == old(mem) || fresh(mem))
      ensures Contents() == old(Contents()) + [item] && Size() == old(Size()).Pushed()
    {
      if mem.Length == length { Resize(mem.Length * 2); }
      mem[length] := item;
      length := length + 1;
    }

    /** `try_shrink`: never loses an element, never reaches capacity zero. */
    method TryShrink()
      requires Valid()
      modifies this`mem
      ensures Valid() && (mem == old(mem) || fresh(mem))
      ensures Contents() == old(Contents()) && Size() == old(Size()).Shrunk()
    {
      if length < mem.Length / 3 { Resize(mem.Length / 2); }
    }

    /** The `memmove` of a splice: it also drags `2 * count` elements from beyond the live part. */
    method MoveDown(n: nat, count: nat)
      requires Valid() && n + count <= length && length + 2 * count <= mem.Length
      modifies mem
      ensures mem[..n] == old(mem[..n]) && mem[n..length - count] == old(mem[n + count..length])
    {
      var moved := mem[n + count..length + 2 * count];
      ghost var before := mem[..];
      forall i | 0 <= i < |moved| { mem[n + i] := moved[i]; }
      ghost var got, want := mem[n..length - count], before[n + count..length];
      forall i | 0 <= i < |want| ensures got[i] == want[i] {
        assert mem[n + i] == moved[i];
      }
    }

    /** `hector_splice` of a live range: exactly that range disappears, unless the move leaves the block. */
    method Splice(n: nat, count: nat) returns (inside: bool)
      requires Valid() && n + count <= length
      modifies this, mem
      ensures Valid() && (mem == old(mem) || fresh(mem))
      ensures inside <==> InBounds(old(length), old(mem.Length), n, count)
      ensures inside ==> Contents() == old(Contents())[..n] + old(Contents())[n + count..]
      ensures inside ==> Size() == old(Size()).Spliced(count)
      ensures !inside ==> Contents() == old(Contents()) && Size() == old(Size())
    {
      ghost var s := Contents();
      if n + count > mem.Length || count == 0 {
        assert s == s[..n] + s[n..];
        return true;
      }
      if n != length - count {
        if MoveEnd(length, n, count) > mem.Length { return false; }
        MoveDown(n, count);
        assert mem[n..length - count] == s[n + count..];
      } else {
        assert s[n + count..] == [] == mem[n..n];
      }
      assert mem[..n] == s[..n];
      length := length - count;
      assert mem[..length] == mem[..n] + mem[n..length];
      TryShrink();
      inside := true;
    }
  }

  // --------------------------------------------------- pushes and head removals

  datatype QueueOp<T> = Enqueue(item: T) | Take

  function After<T>(q: Shape, op: QueueOp<T>): Shape
    requires op.Take? ==> q.length > 0
  {
    if op.Take? then q.Spliced(1) else q.Pushed()
  }

  /** Each Take finds something to take. */
  predicate Feasible<T>(q: Shape, ops: seq<QueueOp<T>>)
    decreases |ops|
  {
    ops == [] || ((ops[0].Take? ==> q.length > 0) && Feasible(After(q, ops[0]), ops[1..]))
  }

  function ShapeAfter<T>(q: Shape, ops: seq<QueueOp<T>>): Shape
    requires Feasible(q, ops)
    decreases |ops|
  {
    if ops == [] then q else ShapeAfter(After(q, ops[0]), ops[1..])
  }

  /** No head removal of the run leaves the block. */
  predicate StaysInside<T>(q: Shape, ops: seq<QueueOp<T>>)
    requires Feasible(q, ops)
    decreases |ops|
  {
    ops == [] ||
    ((ops[0].Take? ==> InBounds(q.length, q.capacity, 0, 1)) && StaysInside(After(q, ops[0]), ops[1..]))
  }

  function ItemOf<T>(op: QueueOp<T>): seq<T> { if op.Enqueue? then [op.item] else [] }

  function Items<T>(ops: seq<QueueOp<T>>): seq<T> {
    if ops == [] then [] else ItemOf(ops[0]) + Items(ops[1..])
  }

  lemma QueueHead<T>(q: Shape, ops: seq<QueueOp<T>>, i: nat)
    requires i < |ops| && Feasible(q, ops[i..])
    ensures (ops[i].Take? ==> q.length > 0) && Feasible(After(q, ops[i]), ops[i + 1..])
    ensures StaysInside(q, ops[i..]) <==>
            (ops[i].Take? ==> InBounds(q.length, q.capacity, 0, 1)) && StaysInside(After(q, ops[i]), ops[i + 1..])
    ensures ShapeAfter(q, ops[i..]) == ShapeAfter(After(q, ops[i]), ops[i + 1..])
    ensures Items(ops[i..]) == ItemOf(ops[i]) + Items(ops[i + 1..])
  {
    assert ops[i..][0] == ops[i] && ops[i..][1..] == ops[i + 1..];
  }

  /** One push or head removal. */
  method UseOnce<T(0)>(h: Hector<T>, op: QueueOp<T>) returns (out: seq<T>, inside: bool)
    requires h.Valid() && (op.Take? ==> h.length > 0)
    modifies h, h.mem
    ensures h.Valid() && (h.mem == old(h.mem) || fresh(h.mem))
    ensures inside <==> (op.Take? ==> InBounds(old(h.length), old(h.mem.Length), 0, 1))
    ensures inside ==> h.Size() == After(old(h.Size()), op) && out + h.Contents() == old(h.Contents()) + ItemOf(op)
  {
    ghost var before := h.Contents();
    out, inside := [], true;
    match op {
      case Enqueue(item) => h.Push(item);
      case Take =>
        out := [h.mem[0]];
        inside := h.Splice(0, 1);
        assert before[..0] + before[1..] == before[1..] && before == [before[0]] + before[1..];
    }
  }

  lemma Handed<T>(taken: seq<T>, before: seq<T>, item: seq<T>, rest: seq<T>, out: seq<T>, after: seq<T>)
    requires out + after == before + item
    ensures taken + before + (item + rest) == taken + out + after + rest
  {
    calc {
      taken + before + (item + rest);
      taken + (before + item) + rest;
      taken + (out + after) + rest;
    }
  }

  /**
   The job queue's way of using the array: every run of pushes and head removals is a FIFO
   exactly as long as no removal leaves the block; the first that would is reported.
   */
  method UseAsQueue<T(0)>(h: Hector<T>, ops: seq<QueueOp<T>>) returns (taken: seq<T>, inside: bool)
    requires h.Valid() && Feasible(h.Size(), ops)
    modifies h, h.mem
    ensures inside <==> StaysInside(old(h.Size()), ops)
    ensures inside ==> h.Valid() && h.Size() == ShapeAfter(old(h.Size()), ops)
    ensures inside ==> taken + h.Contents() == old(h.Contents()) + Items(ops)
  {
    taken := [];
    var i := 0;
    assert ops[0..] == ops;
    while i < |ops|
      invariant 0 <= i <= |ops| && h.Valid() && (h.mem == old(h.mem) || fresh(h.mem))
      invariant Feasible(h.Size(), ops[i..])
      invariant StaysInside(h.Size(), ops[i..]) <==> StaysInside(old(h.Size()), ops)
      invariant ShapeAfter(h.Size(), ops[i..]) == ShapeAfter(old(h.Size()), ops)
      invariant taken + h.Contents() + Items(ops[i..]) == old(h.Contents()) + Items(ops)
    {
      hide Feasible, StaysInside, ShapeAfter, Items, After, InBounds, ItemOf;
      ghost var before := h.Contents();
      QueueHead(h.Size(), ops, i);
      var out;
      out, inside := UseOnce(h, ops[i]);
      if !inside { return; }
      Handed(taken, before, ItemOf(ops[i]), Items(ops[i + 1..]), out, h.Contents());
      taken := taken + out;
      i := i + 1;
    }
    inside := true;
    assert ops[i..] == [] && taken + h.Contents() + [] == taken + h.Contents();
  }

  /** The queue never holds more than b items. */
  predicate AtMost<T>(q: Shape, ops: seq<QueueOp<T>>, b: nat)
    requires Feasible(q, ops)
    decreases |ops|
  {
    q.length <= b && (ops == [] || AtMost(After(q, ops[0]), ops[1..], b))
  }

  lemma {:induction false} OneAtATimeStaysInside<T>(q: Shape, ops: seq<QueueOp<T>>)
    requires Feasible(q, ops) && AtMost(q, ops, 1)
    ensures StaysInside(q, ops)
    decreases |ops|
  {
    if ops != [] { OneAtATimeStaysInside(After(q, ops[0]), ops[1..]); }
  }

  /** `hector_create(NULL, sizeof(FlushJob *), 30)`. */
  function JobQueue(): Shape { Shape(0, 30) }

  /** Four single-job cycles, then two jobs before the next removal. */
  function Cycles<T>(x: T, n: nat, rest: seq<QueueOp<T>>): seq<QueueOp<T>> {
    if n == 0 then rest else [Enqueue(x)] + ([Take] + Cycles(x, n - 1, rest))
  }

  lemma CycleStep<T>(q: Shape, x: T, rest: seq<QueueOp<T>>)
    requires q.length == 0 && q.capacity >= 1
    ensures var ops, r := [Enqueue(x)] + ([Take] + rest), q.Shrunk();
            && (Feasible(q, ops) <==> Feasible(r, rest))
            && (Feasible(q, ops) ==> (StaysInside(q, ops) <==> StaysInside(r, rest)))
            && (Feasible(q, ops) ==> forall b :: b >= 1 ==> (AtMost(q, ops, b) <==> AtMost(r, rest, b)))
  {
    var ops := [Enqueue(x)] + ([Take] + rest);
    assert ops[1..] == [Take] + rest && ([Take] + rest)[1..] == rest;
    assert q.Pushed() == Shape(1, q.capacity) && Shape(1, q.capacity).Spliced(1) == q.Shrunk();
  }

  lemma TwoThenTake<T>(x: T)
    ensures var q, ops := Shape(0, 1), [Enqueue(x), Enqueue(x), Take];
            Feasible(q, ops) && AtMost(q, ops, 2) && !StaysInside(q, ops)
  {
    var ops: seq<QueueOp<T>> := [Enqueue(x), Enqueue(x), Take];
    assert ops[1..] == [Enqueue(x), Take] && [Enqueue(x), Take][1..] == [Take];
    var last: seq<QueueOp<T>> := [Take];
    assert last[1..] == [];
    assert Shape(2, 2).Spliced(1) == Shape(1, 2) && Feasible(Shape(1, 2), last[1..]);
    assert Feasible(Shape(2, 2), last) && AtMost(Shape(2, 2), last, 2) && !StaysInside(Shape(2, 2), last);
    assert Feasible(Shape(1, 1), ops[1..]) && AtMost(Shape(1, 1), ops[1..], 2) && !StaysInside(Shape(1, 1), ops[1..]);
  }

  /** A run of the job queue that never holds more than two jobs and leaves the block. */
  lemma TwoJobsCanLeave<T>(x: T)
    ensures var ops := Cycles(x, 4, [Enqueue(x), Enqueue(x), Take]);
            Feasible(JobQueue(), ops) && AtMost(JobQueue(), ops, 2) && !StaysInside(JobQueue(), ops)
  {
    var end := [Enqueue(x), Enqueue(x), Take];
    hide Feasible, StaysInside, AtMost;
    TwoThenTake(x);
    CycleStep(Shape(0, 3), x, end);
    assert Cycles(x, 1, end) == [Enqueue(x)] + ([Take] + end);
    CycleStep(Shape(0, 7), x, Cycles(x, 1, end));
    CycleStep(Shape(0, 15), x, Cycles(x, 2, end));
    CycleStep(Shape(0, 30), x, Cycles(x, 3, end));
  }

  lemma {:induction false} FewerToo<T>(q: Shape, ops: seq<QueueOp<T>>, b: nat, c: nat)
    requires Feasible(q, ops) && AtMost(q, ops, b) && b <= c
    ensures AtMost(q, ops, c)
    decreases |ops|
  {
    if ops != [] { FewerToo(After(q, ops[0]), ops[1..], b, c); }
  }

  /** The job queue is sure to stay inside its block exactly if it never holds more than one job. */
  lemma JobQueueSafeExactlyWhen<T(!new)>(b: nat, x: T)
    ensures (forall ops: seq<QueueOp<T>> :: Feasible(JobQueue(), ops) && AtMost(JobQueue(), ops, b) ==> StaysInside(JobQueue(), ops))
            <==> b <= 1
  {
    if b <= 1 {
      forall ops: seq<QueueOp<T>> | Feasible(JobQueue(), ops) && AtMost(JobQueue(), ops, b)
        ensures StaysInside(JobQueue(), ops)
      {
        FewerToo(JobQueue(), ops, b, 1);
        OneAtATimeStaysInside(JobQueue(), ops);
      }
    } else {
      var ops := Cycles(x, 4, [Enqueue(x), Enqueue(x), Take]);
      TwoJobsCanLeave(x);
      FewerToo(JobQueue(), ops, 2, b);
    }
  }
}
