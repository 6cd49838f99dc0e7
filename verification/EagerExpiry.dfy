/**
 Lazy expiry against the store it imitates: a reference that deletes every entry
 the moment its deadline passes, and whose operations never test for expiry.
 */
module EagerExpiry {
  import opened Prelude
  import opened Tank

  /** What a client can observe of a store at time t. */
  function Purge(s: Store, t: int): Store {
    map k | k in s && !Expired(s[k], t) :: s[k]
  }

  /** Equal to every observer, at time t and at every later time. */
  ghost predicate SameFrom(a: Store, b: Store, t: int) {
    forall u :: t <= u ==> Purge(a, u) == Purge(b, u)
  }

  lemma PurgeTwice(s: Store, t: int, u: int)
    requires t <= u
    ensures Purge(Purge(s, t), u) == Purge(s, u)
  {
  }

  lemma SameFromNow(a: Store, b: Store, t: int)
    requires Purge(a, t) == Purge(b, t)
    ensures SameFrom(a, b, t)
  {
    forall u | t <= u ensures Purge(a, u) == Purge(b, u) {
      PurgeTwice(a, t, u);
      PurgeTwice(b, t, u);
    }
  }

  // ------------------------------------------------------ reference store

  function EagerSet(cur: Option<Entry>, op: Op): (Reply, Option<Mutation>)
    requires op.Set?
  {
    var shown := if op.get && cur.Some? then Some(cur.value.value) else None;
    if (op.nx && cur.Some?) || (op.xx && cur.None?) then (Previous(shown), None)
    else (Previous(shown), Some(SetTo(op.key, op.value, ToMutationTime(SetDeadline(op.expiration, cur)))))
  }

  function EagerExpire(cur: Option<Entry>, op: Op, later: int): (Reply, Option<Mutation>)
    requires op.Expire?
  {
    if cur.None? || ConditionBlocks(op.condition, cur.value.expiresAt, op.at) then (ExpirySet(false), None)
    else (ExpirySet(true), Some(if op.at <= later then Remove(op.key) else ExpireAt(op.key, op.at)))
  }

  function EagerTtl(cur: Option<Entry>, now: int): Reply {
    if cur.None? then TtlSeconds(-2)
    else if cur.value.expiresAt.None? then TtlSeconds(-1)
    else TtlSeconds(Seconds(cur.value.expiresAt.value) - Seconds(now))
  }

  /** Decides from the entry alone: presence in the reference store means alive. */
  function EagerResolve(s: Store, op: Op, c: Clock): (Reply, Option<Mutation>) {
    var cur := if op.key in s then Some(s[op.key]) else None;
    match op
    case Get(_) => (Value(if cur.Some? then Some(cur.value.value) else None), None)
    case Set(_, _, _, _, _, _) => EagerSet(cur, op)
    case Del(k) => if cur.Some? then (Deleted(1), Some(Remove(k))) else (Deleted(0), None)
    case Ttl(_) => (EagerTtl(cur, c.now), None)
    case Exists(_) => (Found(if cur.Some? then 1 else 0), None)
    case Expire(_, _, _) => EagerExpire(cur, op, c.later)
    case IncrBy(k, d) => Increment(cur, k, d)
  }

  function EagerDigest(s: Store, op: Op, c: Clock): Outcome {
    var s1 := Purge(s, c.now);
    var (reply, m) := EagerResolve(s1, op, c);
    Outcome(Purge(ApplyOpt(s1, m), c.later), reply, m)
  }

  function EagerAnswers(s: Store, ops: seq<Timed>): seq<Answer>
    decreases |ops|
  {
    if ops == [] then []
    else
      var r := EagerDigest(s, ops[0].op, ops[0].clock);
      [Answer(r.reply, r.mutation)] + EagerAnswers(r.store, ops[1..])
  }

  function EagerStore(s: Store, ops: seq<Timed>): Store
    decreases |ops|
  {
    if ops == [] then s else EagerStore(EagerDigest(s, ops[0].op, ops[0].clock).store, ops[1..])
  }

  // ------------------------------------------------------------ refinement

  /** A mutation that came from a live key acts alike on stores that look alike. */
  lemma ApplyRespectsView(a: Store, b: Store, m: Mutation, t: int)
    requires Purge(a, t) == Purge(b, t)
    requires m.ExpireAt? ==> m.key in Purge(a, t)
    ensures Purge(Apply(a, m), t) == Purge(Apply(b, m), t)
  {
    var pa, pb := Purge(Apply(a, m), t), Purge(Apply(b, m), t);
    if m.ExpireAt? {
      assert a[m.key] == Purge(a, t)[m.key];
      assert b[m.key] == Purge(b, t)[m.key];
    }
    forall k
      ensures k in pa <==> k in pb
      ensures k in pa && k in pb ==> pa[k] == pb[k]
    {
      if k != m.key {
        assert k in pa <==> k in Purge(a, t);
        assert k in pb <==> k in Purge(b, t);
        if k in pa { assert pa[k] == Purge(a, t)[k]; }
        if k in pb { assert pb[k] == Purge(b, t)[k]; }
      }
    }
  }

  /** Resolving never changes what can be observed, and answers from what can be observed. */
  lemma ResolveSeesView(s: Store, op: Op, c: Clock)
    ensures Purge(Resolve(s, op, c).store, c.now) == Purge(s, c.now)
    ensures !op.Ttl? ==>
              (Resolve(s, op, c).reply, Resolve(s, op, c).mutation) == EagerResolve(Purge(s, c.now), op, c)
    ensures op.Ttl? ==> Resolve(s, op, c).mutation == EagerResolve(Purge(s, c.now), op, c).1
    ensures Resolve(s, op, c).mutation.Some? && Resolve(s, op, c).mutation.value.ExpireAt?
            ==> Resolve(s, op, c).mutation.value.key in Purge(s, c.now)
  {
    assert op.key in Purge(s, c.now) <==> Alive(s, op.key, c.now);
    if op.key in s && Expired(s[op.key], c.now) {
      assert Purge(s - {op.key}, c.now) == Purge(s, c.now);
    }
  }

  predicate SameAnswer(op: Op, a: Answer, b: Answer) {
    a.mutation == b.mutation && (op.Ttl? || a.reply == b.reply)
  }

  lemma StepRefines(l: Store, e: Store, op: Op, c: Clock, t: int)
    requires t <= c.now && c.Valid()
    requires Purge(l, t) == Purge(e, t)
    ensures var d, r := Digest(l, op, c), EagerDigest(e, op, c);
            SameAnswer(op, Answer(d.reply, d.mutation), Answer(r.reply, r.mutation)) &&
            Purge(d.store, c.later) == Purge(r.store, c.later) == r.store
  {
    SameFromNow(l, e, t);
    ResolveSeesView(l, op, c);
    var r := Resolve(l, op, c);
    var e1 := Purge(e, c.now);
    PurgeTwice(e, c.now, c.now);
    if r.mutation.Some? {
      ApplyRespectsView(r.store, e1, r.mutation.value, c.now);
    }
    var d := ApplyOpt(r.store, r.mutation);
    var f := ApplyOpt(e1, r.mutation);
    SameFromNow(d, f, c.now);
    PurgeTwice(f, c.later, c.later);
  }

  /**
   For every run with a nondecreasing clock, the lazily evicting tank gives the
   reference store's replies (TTL aside) and mutations, and ends in a store that
   looks like the reference store.
   */
  lemma {:induction false} LazyRefinesEager(l: Store, e: Store, ops: seq<Timed>, t: int)
    requires Monotone(ops, t)
    requires Purge(l, t) == Purge(e, t)
    ensures |RunAnswers(l, ops)| == |EagerAnswers(e, ops)| == |ops|
    ensures forall i :: 0 <= i < |ops| ==> SameAnswer(ops[i].op, RunAnswers(l, ops)[i], EagerAnswers(e, ops)[i])
    ensures SameFrom(RunStore(l, ops), EagerStore(e, ops), EndOf(ops, t))
    decreases |ops|
  {
    if ops == [] {
      SameFromNow(l, e, t);
    } else {
      var op, c := ops[0].op, ops[0].clock;
      StepRefines(l, e, op, c, t);
      LazyRefinesEager(Digest(l, op, c).store, EagerDigest(e, op, c).store, ops[1..], c.later);
      forall i | 0 <= i < |ops|
        ensures SameAnswer(ops[i].op, RunAnswers(l, ops)[i], EagerAnswers(e, ops)[i])
      {
        if i > 0 { assert ops[i] == ops[1..][i - 1]; }
      }
    }
  }

  /**
   TTL is not an observer: its answer agrees with the reference exactly when the
   key is not an unevicted expired entry, or its age happens to print as -2.
   */
  lemma TtlAgreesExactlyWhen(s: Store, k: DataString, now: Int64)
    ensures ResolveTtl(s, k, now).reply == EagerResolve(Purge(s, now), Ttl(k), Clock(now, now)).0
            <==> (k in s && Expired(s[k], now) ==> Seconds(s[k].expiresAt.value) - Seconds(now) == -2)
  {
    assert k in Purge(s, now) <==> Alive(s, k, now);
  }

  /** Two stores no other command can tell apart, told apart by TTL. */
  lemma TtlTellsApart() returns (a: Store, b: Store, k: DataString, now: Int64)
    ensures SameFrom(a, b, now)
    ensures ResolveTtl(a, k, now).reply != ResolveTtl(b, k, now).reply
  {
    k := [107];
    now := 5000;
    a := map[k := Entry([118], Some(5000))];
    b := map[];
    assert Purge(a, now) == Purge(b, now);
    SameFromNow(a, b, now);
  }
}
