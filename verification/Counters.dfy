/** INCRBY arithmetic, and deadlines kept clear of the "no expiry" sentinel (src/septic_tank/septic_tank_incrby.c, septic_tank_set.c). */
module Counters {
  import opened Prelude
  import opened Tank
  import Numbers

  // -------------------------------------------------------------- deadlines

  /** No entry holds the deadline that collides with the "no expiry" sentinel. */
  ghost predicate NoSentinel(s: Store) {
    forall k :: k in s ==> s[k].expiresAt != Some(NO_EXPIRY)
  }

  lemma DigestKeepsNoSentinel(s: Store, op: Op, c: Clock)
    requires NoSentinel(s) && c.Valid() && 0 <= c.now
    ensures NoSentinel(Digest(s, op, c).store)
  {
  }

  /** With a nonnegative clock no reachable entry holds deadline -1. */
  lemma {:induction false} RunKeepsNoSentinel(s: Store, ops: seq<Timed>, t: int)
    requires NoSentinel(s) && 0 <= t && Monotone(ops, t)
    ensures NoSentinel(RunStore(s, ops))
    decreases |ops|
  {
    if ops != [] {
      DigestKeepsNoSentinel(s, ops[0].op, ops[0].clock);
      RunKeepsNoSentinel(Digest(s, ops[0].op, ops[0].clock).store, ops[1..], ops[0].clock.later);
    }
  }

  lemma SameDeadline(s: Store, op: Op, c: Clock)
    requires NoSentinel(s) && Alive(s, op.key, c.now) && Digest(s, op, c).mutation.Some?
    requires op.IncrBy? || (op.Set? && op.expiration.KeepOld?)
    ensures var m := Digest(s, op, c).mutation.value;
            m.SetTo? && m.key == op.key && FromMutationTime(m.expiresAt) == s[op.key].expiresAt
  {
  }

  /** A requested SET deadline is stored exactly, for every timestamp but the sentinel. */
  lemma SetDeadlineStored(s: Store, op: Op, c: Clock)
    requires op.Set? && op.expiration.UnixTs?
    requires Digest(s, op, c).mutation.Some?
    ensures op.key in Digest(s, op, c).store
    ensures Digest(s, op, c).store[op.key].expiresAt == Some(op.expiration.ts) <==> op.expiration.ts != NO_EXPIRY
  {
  }

  // --------------------------------------------------------------- counters

  /** Mathematical integer addition, skipping every delta that would leave int64. */
  function TrueSum(v: int, deltas: seq<Int64>): int
    decreases |deltas|
  {
    if deltas == [] then v
    else TrueSum(if FitsInt64(v + deltas[0]) then v + deltas[0] else v, deltas[1..])
  }

  predicate AllIncrements(k: DataString, ops: seq<Timed>) {
    forall i :: 0 <= i < |ops| ==> ops[i].op.IncrBy? && ops[i].op.key == k
  }

  function Deltas(ops: seq<Timed>): seq<Int64>
    requires forall i :: 0 <= i < |ops| ==> ops[i].op.IncrBy?
  {
    seq(|ops|, i requires 0 <= i < |ops| => ops[i].op.delta)
  }

  /** The entry for k is alive, never expires before `end`, and its text reads as v. */
  predicate Holds(s: Store, k: DataString, v: Int64, end: int) {
    && Alive(s, k, end)
    && s[k].expiresAt != Some(NO_EXPIRY)
    && Numbers.ParseInt64(s[k].value) == Some(v)
  }

  lemma OverflowTestExact(v: Int64, delta: Int64)
    ensures AddOverflows(v, delta) <==> !FitsInt64(v as int + delta as int)
  {
  }

  lemma IncrementOf(e: Entry, k: DataString, v: Int64, delta: Int64)
    requires Numbers.ParseInt64(e.value) == Some(v)
    ensures var sum := v as int + delta as int;
            if FitsInt64(sum)
            then |Numbers.Print(sum)| <= 20 &&
                 Increment(Some(e), k, delta) ==
                 (Counter(sum), Some(SetTo(k, Numbers.Print(sum), ToMutationTime(e.expiresAt))))
            else Increment(Some(e), k, delta) == (Failed(IntegerOverflow), None)
  {
    OverflowTestExact(v, delta);
    if FitsInt64(v as int + delta as int) { Numbers.PrintLength(v as int + delta as int); }
  }

  /** One increment of a live counter: it errs and changes nothing exactly when the true sum leaves int64. */
  lemma IncrementExact(s: Store, k: DataString, v: Int64, delta: Int64, c: Clock, end: int)
    requires Holds(s, k, v, end) && c.now <= end
    ensures var d := Digest(s, IncrBy(k, delta), c);
            var sum := v as int + delta as int;
            if FitsInt64(sum)
            then d.reply == Counter(sum) && Holds(d.store, k, sum, end) && d.store - {k} == s - {k} &&
                 d.store[k].expiresAt == s[k].expiresAt
            else d == Outcome(s, Failed(IntegerOverflow), None)
  {
    IncrementOf(s[k], k, v, delta);
    assert Alive(s, k, c.now);
    var sum := v as int + delta as int;
    if FitsInt64(sum) {
      Numbers.ParsePrint(sum);
      var text := Numbers.Print(sum);
      var d := Digest(s, IncrBy(k, delta), c);
      assert d.store == s[k := Entry(text, s[k].expiresAt)];
    }
  }

  lemma DeltasTail(ops: seq<Timed>)
    requires ops != [] && forall i :: 0 <= i < |ops| ==> ops[i].op.IncrBy?
    ensures Deltas(ops) == [ops[0].op.delta] + Deltas(ops[1..])
  {
  }

  lemma {:induction false} EndIsLast(ops: seq<Timed>, t: int)
    requires Monotone(ops, t)
    ensures t <= EndOf(ops, t)
    decreases |ops|
  {
    if ops != [] { EndIsLast(ops[1..], ops[0].clock.later); }
  }

  /** The reply to the i-th increment: the exact partial sum, or an error exactly where it leaves int64. */
  function ExactReply(v: int, deltas: seq<Int64>, i: nat): Reply
    requires i < |deltas|
  {
    var sum := TrueSum(v, deltas[..i]) + deltas[i] as int;
    if FitsInt64(sum) then Counter(sum) else Failed(IntegerOverflow)
  }

  lemma ExactReplyTail(v: int, deltas: seq<Int64>, i: nat)
    requires 0 < i < |deltas|
    ensures ExactReply(v, deltas, i) == ExactReply(if FitsInt64(v + deltas[0]) then v + deltas[0] else v, deltas[1..], i - 1)
  {
    assert deltas[..i][1..] == deltas[1..][..i - 1];
  }

  /** The counter after the first increment, and the others. */
  lemma CounterHead(s: Store, k: DataString, v: Int64, ops: seq<Timed>, t: int)
    requires ops != [] && Monotone(ops, t) && AllIncrements(k, ops) && Holds(s, k, v, EndOf(ops, t))
    ensures var sum := v as int + ops[0].op.delta as int;
            var d := Digest(s, ops[0].op, ops[0].clock);
            && Holds(d.store, k, if FitsInt64(sum) then sum else v, EndOf(ops[1..], ops[0].clock.later))
            && d.reply == (if FitsInt64(sum) then Counter(sum) else Failed(IntegerOverflow))
            && d.store[k].expiresAt == s[k].expiresAt && d.store - {k} == s - {k}
    ensures Deltas(ops)[0] == ops[0].op.delta && Deltas(ops)[1..] == Deltas(ops[1..])
  {
    hide Digest, Numbers.ParseInt64, Deltas;
    var c, delta := ops[0].clock, ops[0].op.delta;
    assert ops[0].op == IncrBy(k, delta);
    EndIsLast(ops[1..], c.later);
    IncrementExact(s, k, v, delta, c, EndOf(ops, t));
    DeltasTail(ops);
  }

  lemma {:induction false} CounterStore(s: Store, k: DataString, v: Int64, ops: seq<Timed>, t: int)
    requires Monotone(ops, t) && AllIncrements(k, ops) && Holds(s, k, v, EndOf(ops, t))
    ensures FitsInt64(TrueSum(v, Deltas(ops)))
    ensures Holds(RunStore(s, ops), k, TrueSum(v, Deltas(ops)), EndOf(ops, t))
    ensures RunStore(s, ops)[k].expiresAt == s[k].expiresAt && RunStore(s, ops) - {k} == s - {k}
    decreases |ops|
  {
    if ops != [] {
      hide Digest, Deltas, Numbers.ParseInt64;
      CounterHead(s, k, v, ops, t);
      var sum := v as int + ops[0].op.delta as int;
      CounterStore(Digest(s, ops[0].op, ops[0].clock).store, k, if FitsInt64(sum) then sum else v, ops[1..], ops[0].clock.later);
    }
  }

  lemma {:induction false} CounterReplies(s: Store, k: DataString, v: Int64, ops: seq<Timed>, t: int)
    requires Monotone(ops, t) && AllIncrements(k, ops) && Holds(s, k, v, EndOf(ops, t))
    ensures |RunAnswers(s, ops)| == |ops|
    ensures forall i :: 0 <= i < |ops| ==> RunAnswers(s, ops)[i].reply == ExactReply(v, Deltas(ops), i)
    decreases |ops|
  {
    if ops != [] {
      hide Digest, Numbers.ParseInt64;
      CounterHead(s, k, v, ops, t);
      var sum := v as int + ops[0].op.delta as int;
      CounterReplies(Digest(s, ops[0].op, ops[0].clock).store, k, if FitsInt64(sum) then sum else v, ops[1..], ops[0].clock.later);
      forall i | 0 <= i < |ops| ensures RunAnswers(s, ops)[i].reply == ExactReply(v, Deltas(ops), i) {
        if i > 0 { ExactReplyTail(v, Deltas(ops), i); }
      }
    }
  }

  /**
   Over every sequence of increments of a key that stays alive: each reply is the exact
   partial sum, or an error exactly where that leaves int64; the stored text reads back as the
   exact sum, the deadline is untouched, no other key changes.
   */
  lemma CounterExact(s: Store, k: DataString, v: Int64, ops: seq<Timed>, t: int)
    requires Monotone(ops, t) && AllIncrements(k, ops) && Holds(s, k, v, EndOf(ops, t))
    ensures |RunAnswers(s, ops)| == |ops|
    ensures forall i :: 0 <= i < |ops| ==> RunAnswers(s, ops)[i].reply == ExactReply(v, Deltas(ops), i)
    ensures FitsInt64(TrueSum(v, Deltas(ops)))
    ensures Holds(RunStore(s, ops), k, TrueSum(v, Deltas(ops)), EndOf(ops, t))
    ensures RunStore(s, ops)[k].expiresAt == s[k].expiresAt && RunStore(s, ops) - {k} == s - {k}
  {
    hide RunStore, RunAnswers, Monotone, ExactReply, TrueSum;
    CounterStore(s, k, v, ops, t);
    CounterReplies(s, k, v, ops, t);
  }

  /** A missing or expired key counts from zero and gets no deadline. */
  lemma FreshCounter(s: Store, k: DataString, delta: Int64, c: Clock)
    requires !Alive(s, k, c.now)
    ensures Digest(s, IncrBy(k, delta), c).reply == Counter(delta)
    ensures forall end :: Holds(Digest(s, IncrBy(k, delta), c).store, k, delta, end)
  {
    Numbers.ParsePrint(delta);
  }
}
