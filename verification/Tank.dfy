/**
 The data actor's sequential behaviour (src/septic_tank/): every operation is
 resolved against the store into a reply and, when it changes state, a mutation;
 the mutation is then applied. The store is the abstract map the hash table is
 meant to be (module HashTable says exactly when it is one).
 */
module Tank {
  import opened Prelude
  import Numbers

  /** `DataEntry`; DATA_STRING is the only entry type the program has. */
  datatype Entry = Entry(value: DataString, expiresAt: Option<Int64>)

  type Store = map<DataString, Entry>

  datatype Expiration = NoExpire | UnixTs(ts: Int64) | KeepOld

  datatype ExpireCondition = Always | IfNone | IfSome | IfGreater | IfLess

  datatype Op =
    | Get(key: DataString)
    | Set(key: DataString, value: DataString, nx: bool, xx: bool, get: bool, expiration: Expiration)
    | Del(key: DataString)
    | Ttl(key: DataString)
    | Exists(key: DataString)
    | Expire(key: DataString, at: Int64, condition: ExpireCondition)
    | IncrBy(key: DataString, delta: Int64)

  /** `ST_MUTATION_NO_EXPIRY`, stored in a SET mutation when the key has no deadline. */
  const NO_EXPIRY: Int64 := -1

  datatype Mutation =
    | SetTo(key: DataString, value: DataString, expiresAt: Int64)
    | Remove(key: DataString)
    | ExpireAt(key: DataString, at: Int64)

  datatype Error = NotAnInteger | IntegerOverflow

  datatype Reply =
    | Value(value: Option<DataString>)
    | Previous(previous: Option<DataString>)
    | Deleted(count: nat)
    | TtlSeconds(seconds: int)
    | Found(count: nat)
    | ExpirySet(isSet: bool)
    | Counter(n: Int64)
    | Failed(error: Error)

  /** The two clock readings an operation may take; EXPIRE takes both. */
  datatype Clock = Clock(now: Int64, later: Int64) {
    predicate Valid() { now <= later }
  }

  datatype Outcome = Outcome(store: Store, reply: Reply, mutation: Option<Mutation>)

  /** `data_is_expired` at a given clock reading. */
  predicate Expired(e: Entry, now: int) {
    e.expiresAt.Some? && e.expiresAt.value <= now
  }

  predicate Alive(s: Store, k: DataString, now: int) {
    k in s && !Expired(s[k], now)
  }

  function ToMutationTime(t: Option<Int64>): Int64 {
    if t.Some? then t.value else NO_EXPIRY
  }

  function FromMutationTime(t: Int64): Option<Int64> {
    if t == NO_EXPIRY then None else Some(t)
  }

  // ------------------------------------------------------------ write half

  /** `septic_tank_apply_mutation`. */
  function Apply(s: Store, m: Mutation): Store {
    match m
    case SetTo(k, v, t) => s[k := Entry(v, FromMutationTime(t))]
    case Remove(k) => s - {k}
    case ExpireAt(k, t) => if k in s then s[k := s[k].(expiresAt := Some(t))] else s
  }

  function ApplyOpt(s: Store, m: Option<Mutation>): Store {
    if m.Some? then Apply(s, m.value) else s
  }

  // ---------------------------------------------------------- resolve half

  function ResolveGet(s: Store, k: DataString, now: int): Outcome {
    if k !in s then Outcome(s, Value(None), None)
    else if Expired(s[k], now) then Outcome(s - {k}, Value(None), None)
    else Outcome(s, Value(Some(s[k].value)), None)
  }

  function SetDeadline(e: Expiration, prior: Option<Entry>): Option<Int64> {
    match e
    case NoExpire => None
    case UnixTs(ts) => Some(ts)
    case KeepOld => if prior.Some? then prior.value.expiresAt else None
  }

  function ResolveSet(s: Store, op: Op, now: int): Outcome
    requires op.Set?
  {
    var k := op.key;
    var expired := k in s && Expired(s[k], now);
    if op.nx && k in s && !expired then
      Outcome(s, Previous(if op.get then Some(s[k].value) else None), None)
    else if op.xx && (k !in s || expired) then
      Outcome(if expired then s - {k} else s, Previous(None), None)
    else
      var s1 := if expired then s - {k} else s;
      var prior := if k in s1 then Some(s1[k]) else None;
      var m := SetTo(k, op.value, ToMutationTime(SetDeadline(op.expiration, prior)));
      Outcome(s1, Previous(if op.get && prior.Some? then Some(prior.value.value) else None), Some(m))
  }

  function ResolveDel(s: Store, k: DataString, now: int): Outcome {
    if k !in s then Outcome(s, Deleted(0), None)
    else if Expired(s[k], now) then Outcome(s - {k}, Deleted(0), None)
    else Outcome(s, Deleted(1), Some(Remove(k)))
  }

  function ResolveExists(s: Store, k: DataString, now: int): Outcome {
    if k !in s then Outcome(s, Found(0), None)
    else if Expired(s[k], now) then Outcome(s - {k}, Found(0), None)
    else Outcome(s, Found(1), None)
  }

  /** C's int64 division by 1000: truncation toward zero. */
  function Seconds(ms: int): int {
    if ms >= 0 then ms / 1000 else -((-ms) / 1000)
  }

  /** TTL never looks at whether the entry has expired. */
  function ResolveTtl(s: Store, k: DataString, now: int): Outcome {
    if k !in s then Outcome(s, TtlSeconds(-2), None)
    else if s[k].expiresAt.None? then Outcome(s, TtlSeconds(-1), None)
    else Outcome(s, TtlSeconds(Seconds(s[k].expiresAt.value) - Seconds(now)), None)
  }

  predicate ConditionBlocks(c: ExpireCondition, current: Option<Int64>, at: Int64) {
    match c
    case Always => false
    case IfNone => current.Some?
    case IfSome => current.None?
    case IfGreater => current.None? || at <= current.value
    case IfLess => current.Some? && at >= current.value
  }

  function ResolveExpire(s: Store, op: Op, c: Clock): Outcome
    requires op.Expire?
  {
    var k := op.key;
    if k !in s then Outcome(s, ExpirySet(false), None)
    else if Expired(s[k], c.now) then Outcome(s - {k}, ExpirySet(false), None)
    else if ConditionBlocks(op.condition, s[k].expiresAt, op.at) then Outcome(s, ExpirySet(false), None)
    else Outcome(s, ExpirySet(true), Some(if op.at <= c.later then Remove(k) else ExpireAt(k, op.at)))
  }

  predicate AddOverflows(value: Int64, delta: Int64) {
    || (delta > 0 && value as int > TWO_63 - 1 - delta as int)
    || (delta < 0 && (value as int) < -TWO_63 - delta as int)
  }

  /** What INCRBY makes of the entry it found alive, or of its absence. */
  function Increment(e: Option<Entry>, k: DataString, delta: Int64): (Reply, Option<Mutation>) {
    var parsed := if e.Some? then Numbers.ParseInt64(e.value.value) else Some(0);
    if parsed.None? then (Failed(NotAnInteger), None)
    else if AddOverflows(parsed.value, delta) then (Failed(IntegerOverflow), None)
    else
      var v: Int64 := parsed.value as int + delta as int;
      Numbers.PrintLength(v);
      var t := ToMutationTime(if e.Some? then e.value.expiresAt else None);
      (Counter(v), Some(SetTo(k, Numbers.Print(v), t)))
  }

  /** INCRBY treats an expired entry as absent but leaves it in place. */
  function ResolveIncrBy(s: Store, k: DataString, delta: Int64, now: int): Outcome {
    var e := if Alive(s, k, now) then Some(s[k]) else None;
    var (reply, m) := Increment(e, k, delta);
    Outcome(s, reply, m)
  }

  function Resolve(s: Store, op: Op, c: Clock): Outcome {
    match op
    case Get(k) => ResolveGet(s, k, c.now)
    case Set(_, _, _, _, _, _) => ResolveSet(s, op, c.now)
    case Del(k) => ResolveDel(s, k, c.now)
    case Ttl(k) => ResolveTtl(s, k, c.now)
    case Exists(k) => ResolveExists(s, k, c.now)
    case Expire(_, _, _) => ResolveExpire(s, op, c)
    case IncrBy(k, d) => ResolveIncrBy(s, k, d, c.now)
  }

  /** `septic_tank_digest`: resolve, then apply what was resolved. */
  function Digest(s: Store, op: Op, c: Clock): Outcome {
    var r := Resolve(s, op, c);
    r.(store := ApplyOpt(r.store, r.mutation))
  }

  // ------------------------------------------------------------------ runs

  datatype Timed = Timed(op: Op, clock: Clock)

  /** Clock readings never go backwards, within an operation or between operations. */
  predicate Monotone(ops: seq<Timed>, from: int) {
    ops == [] || (from <= ops[0].clock.now && ops[0].clock.Valid() && Monotone(ops[1..], ops[0].clock.later))
  }

  function EndOf(ops: seq<Timed>, from: int): int {
    if ops == [] then from else EndOf(ops[1..], ops[0].clock.later)
  }

  datatype Answer = Answer(reply: Reply, mutation: Option<Mutation>)

  function RunStore(s: Store, ops: seq<Timed>): Store
    decreases |ops|
  {
    if ops == [] then s else RunStore(Digest(s, ops[0].op, ops[0].clock).store, ops[1..])
  }

  function RunAnswers(s: Store, ops: seq<Timed>): seq<Answer>
    decreases |ops|
  {
    if ops == [] then []
    else
      var r := Digest(s, ops[0].op, ops[0].clock);
      [Answer(r.reply, r.mutation)] + RunAnswers(r.store, ops[1..])
  }

  function OptSeq<T>(o: Option<T>): seq<T> {
    if o.Some? then [o.value] else []
  }

  /** The mutations a run feeds to the log, in apply order. */
  function RunLog(s: Store, ops: seq<Timed>): seq<Mutation>
    decreases |ops|
  {
    if ops == [] then []
    else
      var r := Digest(s, ops[0].op, ops[0].clock);
      OptSeq(r.mutation) + RunLog(r.store, ops[1..])
  }

  function Replay(s: Store, ms: seq<Mutation>): Store
    decreases |ms|
  {
    if ms == [] then s else Replay(Apply(s, ms[0]), ms[1..])
  }

  lemma {:induction false} ReplayAppend(s: Store, a: seq<Mutation>, b: seq<Mutation>)
    ensures Replay(s, a + b) == Replay(Replay(s, a), b)
    decreases |a|
  {
    if a == [] {
      assert a + b == b;
    } else {
      ReplayAppend(Apply(s, a[0]), a[1..], b);
      assert (a + b)[1..] == a[1..] + b;
    }
  }

  lemma ReplaySnoc(s: Store, ms: seq<Mutation>, m: Mutation)
    ensures Replay(s, ms + [m]) == Apply(Replay(s, ms), m)
  {
    ReplayAppend(s, ms, [m]);
    assert [m][1..] == [];
    assert Replay(Apply(Replay(s, ms), m), []) == Apply(Replay(s, ms), m);
  }

  /** A run followed by one more operation. */
  lemma {:induction false} RunSnoc(s: Store, ops: seq<Timed>, x: Timed)
    ensures var d := Digest(RunStore(s, ops), x.op, x.clock);
            && RunStore(s, ops + [x]) == d.store
            && RunAnswers(s, ops + [x]) == RunAnswers(s, ops) + [Answer(d.reply, d.mutation)]
            && RunLog(s, ops + [x]) == RunLog(s, ops) + OptSeq(d.mutation)
    decreases |ops|
  {
    hide Digest;
    if ops == [] {
      assert [] + [x] == [x] && [x][1..] == [];
    } else {
      var first := Digest(s, ops[0].op, ops[0].clock);
      RunSnoc(first.store, ops[1..], x);
      assert (ops + [x])[1..] == ops[1..] + [x];
    }
  }

  lemma {:induction false} MonotoneSnoc(ops: seq<Timed>, t: int, x: Timed)
    requires Monotone(ops, t) && EndOf(ops, t) <= x.clock.now && x.clock.Valid()
    ensures Monotone(ops + [x], t) && EndOf(ops + [x], t) == x.clock.later
    decreases |ops|
  {
    if ops == [] {
      assert [] + [x] == [x] && [x][1..] == [];
    } else {
      MonotoneSnoc(ops[1..], ops[0].clock.later, x);
      assert (ops + [x])[1..] == ops[1..] + [x];
    }
  }
}
