/** The circular buffer under every channel (src/ring.c). */
module Ring {

  class RingBuf<T(0)> {
    const cap: nat
    var data: array<T>
    var head: nat
    var tail: nat
    var len: nat

    /** Index i steps around the circle from head. */
    ghost function Around(i: nat): nat
      reads this
    {
      if head + i < cap then head + i else head + i - cap
    }

    ghost predicate Valid()
      reads this
    {
      && data.Length == cap && len <= cap
      && (if cap == 0 then head == tail == 0 else head < cap && tail == Around(len))
      && (cap > 0 ==> tail < cap)
    }

    /** Oldest first. */
    ghost function Contents(): (s: seq<T>)
      requires Valid()
      reads this, data
      ensures |s| == len
    {
      seq(len, i requires 0 <= i < len && Valid() reads this, data => data[Around(i)])
    }

    constructor (cap: nat)
      ensures Valid() && fresh(data) && this.cap == cap && Contents() == []
    {
      this.cap := cap;
      data := new T[cap];
      head, tail, len := 0, 0, 0;
    }

    method Push(elem: T) returns (ok: bool)
      requires Valid()
      modifies this, data
      ensures Valid() && data == old(data)
      ensures ok <==> |old(Contents())| < cap
      ensures Contents() == if ok then old(Contents()) + [elem] else old(Contents())
    {
      if len >= cap { return false; }
      data[tail] := elem;
      len := len + 1;
      tail := if tail + 1 == cap then 0 else tail + 1;
      ok := true;
      assert Contents()[|old(Contents())|] == elem;
    }

    method Pop(default: T) returns (ok: bool, out: T)
      requires Valid()
      modifies this
      ensures Valid() && data == old(data)
      ensures ok <==> old(Contents()) != []
      ensures ok ==> [out] + Contents() == old(Contents())
      ensures !ok ==> Contents() == old(Contents()) && out == default
    {
      if len == 0 { return false, default; }
      out := data[head];
      len := len - 1;
      head := if head + 1 == cap then 0 else head + 1;
      ok := true;
      assert out == old(Contents())[0];
      assert forall i :: 0 <= i < len ==> Contents()[i] == old(Contents())[i + 1];
    }
  }
}
