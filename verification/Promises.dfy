/**
 What each command promises a client, said in terms of what the client can observe before
 it (the unexpired entries at its first clock reading) and after it.
 */
module Promises {
  import opened Prelude
  import opened Tank
  import opened EagerExpiry
  import Numbers

  /** Nothing but k changed, to any observer. */
  ghost predicate OthersSame(before: Store, after: Store, k: DataString, now: int) {
    SameFrom(before - {k}, after - {k}, now)
  }

  /** A key is seen until its deadline and no longer: at the deadline itself it is gone. */
  lemma SeenBeforeDeadline(s: Store, k: DataString, now: int)
    ensures k in Purge(s, now) <==> k in s && (s[k].expiresAt == None || now < s[k].expiresAt.value)
    ensures k in Purge(s, now) ==> Purge(s, now)[k] == s[k]
  {
  }

  lemma OthersKept(s: Store, op: Op, c: Clock)
    ensures Digest(s, op, c).store - {op.key} == s - {op.key}
  {
    var r := Resolve(s, op, c);
    assert r.store == s || r.store == s - {op.key};
    assert r.mutation.Some? ==> r.mutation.value.key == op.key;
  }

  lemma OthersUntouched(s: Store, op: Op, c: Clock)
    ensures Digest(s, op, c).store - {op.key} == s - {op.key}
    ensures OthersSame(s, Digest(s, op, c).store, op.key, c.now)
  {
    var t := Digest(s, op, c).store;
    OthersKept(s, op, c);
    SameFromNow(s - {op.key}, t - {op.key}, c.now);
  }

  /** GET returns the value of a key that is present and not expired, and changes nothing. */
  lemma GetPromise(s: Store, k: DataString, c: Clock)
    ensures var d, seen := Digest(s, Get(k), c), Purge(s, c.now);
            && d.reply == Value(if k in seen then Some(seen[k].value) else None)
            && d.mutation.None? && SameFrom(s, d.store, c.now)
  {
    ResolveSeesView(s, Get(k), c);
    SameFromNow(s, Digest(s, Get(k), c).store, c.now);
  }

  lemma ExistsPromise(s: Store, k: DataString, c: Clock)
    ensures var d, seen := Digest(s, Exists(k), c), Purge(s, c.now);
            d.reply == Found(if k in seen then 1 else 0) && d.mutation.None? && SameFrom(s, d.store, c.now)
  {
    ResolveSeesView(s, Exists(k), c);
    SameFromNow(s, Digest(s, Exists(k), c).store, c.now);
  }

  /** DEL counts the key it removed; afterwards nobody sees it, and no one else's key moved. */
  lemma DelPromise(s: Store, k: DataString, c: Clock)
    ensures var d, seen := Digest(s, Del(k), c), Purge(s, c.now);
            && d.reply == Deleted(if k in seen then 1 else 0)
            && d.mutation == (if k in seen then Some(Remove(k)) else None)
            && k !in d.store && OthersSame(s, d.store, k, c.now)
  {
    OthersUntouched(s, Del(k), c);
    assert k in Purge(s, c.now) <==> Alive(s, k, c.now);
  }

  /** The deadline a SET leaves behind; the timestamp -1 means none. */
  predicate DeadlineFor(e: Expiration, seen: Option<Entry>, left: Option<Int64>) {
    match e
    case NoExpire => left == None
    case UnixTs(ts) => left == if ts == -1 then None else Some(ts)
    case KeepOld => left == if seen.None? || seen.value.expiresAt == Some(-1) then None else seen.value.expiresAt
  }

  /**
   SET writes exactly when NX finds no key and XX finds one; GET reports the value seen
   before; a refused SET changes nothing anyone can see.
   */
  lemma SetPromise(s: Store, op: Op, c: Clock)
    requires op.Set?
    ensures var d, seen := Digest(s, op, c), Purge(s, c.now);
            var refused := (op.nx && op.key in seen) || (op.xx && op.key !in seen);
            && d.reply == Previous(if op.get && op.key in seen then Some(seen[op.key].value) else None)
            && (d.mutation.None? <==> refused)
            && (refused ==> SameFrom(s, d.store, c.now))
            && (!refused ==>
                  && op.key in d.store && d.store[op.key].value == op.value
                  && DeadlineFor(op.expiration, if op.key in seen then Some(seen[op.key]) else None, d.store[op.key].expiresAt))
            && OthersSame(s, d.store, op.key, c.now)
  {
    OthersUntouched(s, op, c);
    ResolveSeesView(s, op, c);
    var d := Digest(s, op, c);
    if d.mutation.None? { SameFromNow(s, d.store, c.now); }
    assert op.key in Purge(s, c.now) <==> Alive(s, op.key, c.now);
  }

  /** When EXPIRE's condition lets a deadline through. */
  predicate Permits(cond: ExpireCondition, current: Option<Int64>, at: Int64) {
    match cond
    case Always => true
    case IfNone => current.None?
    case IfSome => current.Some?
    case IfGreater => current.Some? && at > current.value
    case IfLess => current.Some? ==> at < current.value
  }

  /**
   EXPIRE applies exactly to a visible key whose condition permits it; a deadline already
   past deletes the key, any other leaves the value with the new deadline.
   */
  lemma ExpirePromise(s: Store, op: Op, c: Clock)
    requires op.Expire?
    ensures var d, seen := Digest(s, op, c), Purge(s, c.now);
            var applies := op.key in seen && Permits(op.condition, seen[op.key].expiresAt, op.at);
            && d.reply == ExpirySet(applies)
            && (!applies ==> d.mutation.None? && SameFrom(s, d.store, c.now))
            && (applies && op.at <= c.later ==> d.mutation == Some(Remove(op.key)) && op.key !in d.store)
            && (applies && op.at > c.later ==>
                  d.mutation == Some(ExpireAt(op.key, op.at)) && op.key in d.store &&
                  d.store[op.key] == Entry(seen[op.key].value, Some(op.at)))
            && OthersSame(s, d.store, op.key, c.now)
  {
    OthersUntouched(s, op, c);
    ResolveSeesView(s, op, c);
    var d := Digest(s, op, c);
    if d.mutation.None? { SameFromNow(s, d.store, c.now); }
    assert op.key in Purge(s, c.now) <==> Alive(s, op.key, c.now);
  }

  /** INCRBY on a visible value that is not a decimal int64 errs and changes nothing. */
  lemma IncrByRejectsText(s: Store, k: DataString, delta: Int64, c: Clock)
    ensures var d, seen := Digest(s, IncrBy(k, delta), c), Purge(s, c.now);
            d.reply == Failed(NotAnInteger) <==> k in seen && Numbers.ParseInt64(seen[k].value).None?
    ensures var d := Digest(s, IncrBy(k, delta), c);
            d.reply == Failed(NotAnInteger) ==> d.store == s && d.mutation.None?
  {
    assert k in Purge(s, c.now) <==> Alive(s, k, c.now);
  }

  /** Milliseconds to seconds as C divides: the fraction is dropped, towards zero. */
  lemma SecondsDropFraction(q: int, r: int)
    requires q >= 0 && 0 <= r < 1000
    ensures Seconds(1000 * q + r) == q && Seconds(-(1000 * q + r)) == -q
  {
  }

  /**
   TTL answers -2 for a missing key and -1 for one without a deadline; otherwise the difference of
   the two times in whole seconds, each cut to seconds before subtracting, so not the remaining
   time rounded: one millisecond left can read as one second, and 999 as none.
   */
  lemma TtlPromise(s: Store, k: DataString, c: Clock, q: nat, r: nat, p: nat, x: nat)
    requires c.now == 1000 * p + x && r < 1000 && x < 1000
    ensures var d := Digest(s, Ttl(k), c);
            && d.store == s && d.mutation == None
            && (k !in s ==> d.reply == TtlSeconds(-2))
            && (k in s && s[k].expiresAt == None ==> d.reply == TtlSeconds(-1))
            && (k in s && s[k].expiresAt.Some? && s[k].expiresAt.value == 1000 * q + r ==> d.reply == TtlSeconds(q - p))
  {
    SecondsDropFraction(q, r);
    SecondsDropFraction(p, x);
    hide Seconds;
  }
}
