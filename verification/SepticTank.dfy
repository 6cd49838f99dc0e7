/**
 The tank as the program runs it: a hash table object and heap entries updated in place by
 evictions and applied mutations, a response channel and the log it feeds
 (src/septic_tank/septic_tank.c and the operation files beside it).
 */
module TankActor {
  import opened Prelude
  import opened Tank
  import opened HashTable
  import opened TableGrowth
  import opened TableRuns
  import opened TableTank
  import opened TankRuns
  import opened HashMapObject
  import Numbers

  function RepliesOf(answers: seq<Answer>): seq<Reply> {
    seq(|answers|, i requires 0 <= i < |answers| => answers[i].reply)
  }

  function MutationsOf(answers: seq<Answer>): seq<Mutation> {
    if answers == [] then [] else OptSeq(answers[0].mutation) + MutationsOf(answers[1..])
  }

  lemma {:induction false} AnswersSnoc(done: seq<Answer>, a: Answer)
    ensures RepliesOf(done + [a]) == RepliesOf(done) + [a.reply]
    ensures MutationsOf(done + [a]) == MutationsOf(done) + OptSeq(a.mutation)
    decreases |done|
  {
    if done == [] {
      assert done + [a] == [a] && [a][1..] == [];
    } else {
      AnswersSnoc(done[1..], a);
      assert (done + [a])[1..] == done[1..] + [a];
    }
  }

  lemma FailedIsQuiet(s: Store, op: Op, c: Clock)
    ensures Resolve(s, op, c).reply.Failed? ==> Resolve(s, op, c).mutation.None?
  {
  }

  /** Digesting is evicting, then applying; an operation that fails mutates nothing. */
  lemma DigestSplits(hash: Hash, limit: nat, m: Memory, op: Op, c: Clock)
    requires Big(m.slots)
    ensures var s := Contents(hash, m);
            var e, u := ReplayMem(hash, limit, m, Evictions(s, op, c)), Resolve(s, op, c).mutation;
            && (Resolve(s, op, c).reply.Failed? ==> u.None?)
            && AnswerMem(hash, m, op, c) == Answer(Resolve(s, op, c).reply, u)
            && (e.Some? ==> DigestMem(hash, limit, m, op, c) == if u.Some? then ApplyMem(hash, limit, e.value, u.value) else e)
  {
    var s := Contents(hash, m);
    AnswersFromContents(hash, m, op, c);
    FailedIsQuiet(s, op, c);
    hide Resolve, Contents, Seen, ApplyMem, Evictions;
    var u := Resolve(s, op, c).mutation;
    ReplayMemAppend(hash, limit, m, Evictions(s, op, c), OptSeq(u));
    if u.Some? { assert [u.value][1..] == []; }
  }

  lemma RunEmpty(hash: Hash, limit: nat, m: Memory)
    requires Big(m.slots)
    ensures RunMem(hash, limit, m, []) == Some(m) && MemAnswers(hash, limit, m, []) == []
    ensures RepliesOf([]) == [] && MutationsOf([]) == []
  {
  }

  /** The next message of the pump, then the rest. */
  lemma RunHead(hash: Hash, limit: nat, m: Memory, ops: seq<Timed>, i: nat)
    requires Big(m.slots) && i < |ops| && RunMem(hash, limit, m, ops[i..]).Some?
    ensures var d := DigestMem(hash, limit, m, ops[i].op, ops[i].clock);
            && d.Some?
            && RunMem(hash, limit, m, ops[i..]) == RunMem(hash, limit, d.value, ops[i + 1..])
            && MemAnswers(hash, limit, m, ops[i..]) ==
               [AnswerMem(hash, m, ops[i].op, ops[i].clock)] + MemAnswers(hash, limit, d.value, ops[i + 1..])
  {
    hide DigestMem, AnswerMem;
    assert ops[i..][0] == ops[i] && ops[i..][1..] == ops[i + 1..];
  }

  class SepticTank {
    const table: HashMap
    /** Live `DataEntry` objects by address, and the next address `malloc` returns. */
    var heap: Heap
    var next: Pointer
    var aofEnabled: bool
    var replies: seq<Reply>
    var fed: seq<Mutation>

    ghost function Mem(): Memory
      reads this, table, table.data
    {
      Memory(table.data[..], heap, next)
    }

    /** The table object is consistent and every entry is owned by one slot. */
    ghost predicate Valid()
      reads this, table, table.data
    {
      table.Valid() && Sound(Mem())
    }

    /** The store the memory stands for. */
    ghost function Data(): Store
      requires Valid()
      reads this, table, table.data
    {
      Contents(table.hash, Mem())
    }

    constructor (hash: Hash, limit: nat)
      ensures Valid() && fresh(table) && fresh(table.data) && table.hash == hash && table.limit == limit
      ensures Mem() == Start() && aofEnabled && replies == [] && fed == []
    {
      table := new HashMap(hash, limit);
      heap, next := map[], 0;
      aofEnabled, replies, fed := true, [], [];
      new;
      StartSound(hash);
    }

    /** `hashmap_get` and the entry behind the address. */
    method Find(key: DataString) returns (e: Option<Entry>)
      requires Valid()
      ensures e == EntryOf(Data(), key)
    {
      hide Owned;
      LookupOwned(table.hash, Mem(), key);
      ContentsAt(table.hash, Mem(), key);
      var p := table.Get(key);
      e := if p.Some? then Some(heap[p.value]) else None;
    }

    /** `hashmap_remove` with the entry destructor: evictions and DEL. */
    method Erase(key: DataString)
      requires Valid()
      modifies this`heap, table, table.data
      ensures Valid() && table.data == old(table.data)
      ensures Some(Mem()) == ApplyMem(table.hash, table.limit, old(Mem()), Remove(key))
    {
      hide Owned, Erased, Lookup;
      EraseSound(table.hash, table.limit, Mem(), key);
      ghost var found := Lookup(table.hash, table.data[..], key);
      var before := |table.freed|;
      var removed := table.Remove(key);
      assert table.freed[before..] == if removed then [Used(key, found.value)] else [];
      heap := heap - Addresses(table.freed[before..]);
    }

    /** What a handler promises: reply and mutation as specified for the store, evictions done. */
    ghost predicate Resolved(before: Memory, op: Op, c: Clock, reply: Reply, mutation: Option<Mutation>)
      requires Big(before.slots)
      reads this, table, table.data
    {
      var s := Contents(table.hash, before);
      && reply == Resolve(s, op, c).reply && mutation == Resolve(s, op, c).mutation
      && Some(Mem()) == ReplayMem(table.hash, table.limit, before, Evictions(s, op, c))
    }

    method EvictFor(op: Op, c: Clock)
      requires Valid() && Evictions(Data(), op, c) == [Remove(op.key)]
      modifies this`heap, table, table.data
      ensures Valid() && table.data == old(table.data)
      ensures Some(Mem()) == ReplayMem(table.hash, table.limit, old(Mem()), Evictions(old(Data()), op, c))
    {
      hide Owned, ApplyMem, Evictions;
      assert [Remove(op.key)][1..] == [];
      Erase(op.key);
    }

    method HandleGet(key: DataString, c: Clock) returns (reply: Reply)
      requires Valid()
      modifies this`heap, table, table.data
      ensures Valid() && table.data == old(table.data)
      ensures Resolved(old(Mem()), Get(key), c, reply, None)
    {
      hide Owned, Contents;
      var entry := Find(key);
      if entry.None? { return Value(None); }
      if Expired(entry.value, c.now) {
        EvictFor(Get(key), c);
        return Value(None);
      }
      return Value(Some(entry.value.value));
    }

    method HandleSet(op: Op, c: Clock) returns (reply: Reply, mutation: Option<Mutation>)
      requires Valid() && op.Set?
      modifies this`heap, table, table.data
      ensures Valid() && table.data == old(table.data)
      ensures Resolved(old(Mem()), op, c, reply, mutation)
    {
      hide Owned, Contents;
      var entry := Find(op.key);
      var expired := entry.Some? && Expired(entry.value, c.now);
      if op.nx && entry.Some? && !expired {
        return Previous(if op.get then Some(entry.value.value) else None), None;
      }
      if op.xx && (entry.None? || expired) {
        if expired { EvictFor(op, c); }
        return Previous(None), None;
      }
      if expired {
        EvictFor(op, c);
        entry := None;
      }
      var expiresAt: Option<Int64>;
      match op.expiration {
        case NoExpire => expiresAt := None;
        case UnixTs(ts) => expiresAt := Some(ts);
        case KeepOld => expiresAt := if entry.Some? then entry.value.expiresAt else None;
      }
      reply := Previous(if op.get && entry.Some? then Some(entry.value.value) else None);
      mutation := Some(SetTo(op.key, op.value, if expiresAt.Some? then expiresAt.value else NO_EXPIRY));
    }

    method HandleDel(key: DataString, c: Clock) returns (reply: Reply, mutation: Option<Mutation>)
      requires Valid()
      modifies this`heap, table, table.data
      ensures Valid() && table.data == old(table.data)
      ensures Resolved(old(Mem()), Del(key), c, reply, mutation)
    {
      hide Owned, Contents;
      var entry := Find(key);
      if entry.None? { return Deleted(0), None; }
      if Expired(entry.value, c.now) {
        EvictFor(Del(key), c);
        return Deleted(0), None;
      }
      return Deleted(1), Some(Remove(key));
    }

    method HandleExists(key: DataString, c: Clock) returns (reply: Reply)
      requires Valid()
      modifies this`heap, table, table.data
      ensures Valid() && table.data == old(table.data)
      ensures Resolved(old(Mem()), Exists(key), c, reply, None)
    {
      hide Owned, Contents;
      var count := 0;
      var entry := Find(key);
      if entry.Some? {
        var expired := Expired(entry.value, c.now);
        if !expired { count := 1; }
        if expired { EvictFor(Exists(key), c); }
      }
      reply := Found(count);
    }

    method HandleTtl(key: DataString, c: Clock) returns (reply: Reply)
      requires Valid()
      ensures Resolved(Mem(), Ttl(key), c, reply, None)
    {
      hide Owned, Contents;
      var entry := Find(key);
      if entry.None? { return TtlSeconds(-2); }
      if entry.value.expiresAt.None? { return TtlSeconds(-1); }
      return TtlSeconds(Seconds(entry.value.expiresAt.value) - Seconds(c.now));
    }

    method HandleExpire(op: Op, c: Clock) returns (reply: Reply, mutation: Option<Mutation>)
      requires Valid() && op.Expire?
      modifies this`heap, table, table.data
      ensures Valid() && table.data == old(table.data)
      ensures Resolved(old(Mem()), op, c, reply, mutation)
    {
      hide Owned, Contents;
      var entry := Find(op.key);
      if entry.None? { return ExpirySet(false), None; }
      if Expired(entry.value, c.now) {
        EvictFor(op, c);
        return ExpirySet(false), None;
      }
      var current := entry.value.expiresAt;
      if
        || (op.condition.IfNone? && current.Some?)
        || (op.condition.IfSome? && current.None?)
        || (op.condition.IfGreater? && current.None?)
        || (op.condition.IfGreater? && current.Some? && op.at <= current.value)
        || (op.condition.IfLess? && current.Some? && op.at >= current.value)
      {
        return ExpirySet(false), None;
      }
      if op.at <= c.later { return ExpirySet(true), Some(Remove(op.key)); }
      return ExpirySet(true), Some(ExpireAt(op.key, op.at));
    }

    method HandleIncrBy(key: DataString, delta: Int64, c: Clock) returns (reply: Reply, mutation: Option<Mutation>)
      requires Valid()
      ensures Resolved(Mem(), IncrBy(key, delta), c, reply, mutation)
    {
      hide Owned, Contents;
      var value: Int64 := 0;
      var entry := Find(key);
      if entry.Some? && Expired(entry.value, c.now) { entry := None; }
      if entry.Some? {
        var parsed := Numbers.ParseInt64(entry.value.value);
        if parsed.None? { return Failed(NotAnInteger), None; }
        value := parsed.value;
      }
      if AddOverflows(value, delta) { return Failed(IntegerOverflow), None; }
      value := value as int + delta as int;
      Numbers.PrintLength(value);
      var expiresAt := if entry.Some? then entry.value.expiresAt else None;
      return Counter(value),
             Some(SetTo(key, Numbers.Print(value), if expiresAt.Some? then expiresAt.value else NO_EXPIRY));
    }

    /** `septic_tank_apply_set`: a new entry stored under the key; the result of the put is not looked at. */
    method ApplySet(u: Mutation)
      requires Valid() && u.SetTo?
      modifies this`heap, this`next, table, table.data
      ensures table.data == old(table.data) || fresh(table.data)
      ensures var r := ApplyMem(table.hash, table.limit, old(Mem()), u); r.Some? ==> Valid() && Mem() == r.value
    {
      hide Owned, Stored, OneSlot, HoleMet, PutSlots, Addresses;
      ghost var m := Mem();
      if ApplyMem(table.hash, table.limit, m, u).Some? { ApplySound(table.hash, table.limit, m, u); }
      var e := Entry(u.value, if u.expiresAt == NO_EXPIRY then None else Some(u.expiresAt));
      var before := |table.freed|;
      var ok := table.Put(u.key, next);
      if ok {
        assert table.freed[before..] == PutSlots(table.hash, table.limit, m.slots, u.key, m.next).value.freed;
        heap := heap[next := e] - Addresses(table.freed[before..]);
        next := next + 1;
      }
    }

    /** `septic_tank_apply_expire`: the entry is updated where it is. */
    method ApplyExpire(key: DataString, at: Int64)
      requires Valid()
      modifies this`heap
      ensures Valid() && Some(Mem()) == ApplyMem(table.hash, table.limit, old(Mem()), ExpireAt(key, at))
    {
      hide Owned;
      LookupOwned(table.hash, Mem(), key);
      ApplySound(table.hash, table.limit, Mem(), ExpireAt(key, at));
      var p := table.Get(key);
      if p.Some? { heap := heap[p.value := heap[p.value].(expiresAt := Some(at))]; }
    }

    /** `septic_tank_apply_mutation`, shared by the live and the replay path. */
    method ApplyMutation(u: Mutation)
      requires Valid()
      modifies this`heap, this`next, table, table.data
      ensures table.data == old(table.data) || fresh(table.data)
      ensures var r := ApplyMem(table.hash, table.limit, old(Mem()), u); r.Some? ==> Valid() && Mem() == r.value
    {
      hide Owned, ApplyMem;
      match u {
        case SetTo(_, _, _) => ApplySet(u);
        case Remove(key) => Erase(key);
        case ExpireAt(key, t) => ApplyExpire(key, t);
      }
    }

    method ResolveOp(op: Op, c: Clock) returns (reply: Reply, mutation: Option<Mutation>)
      requires Valid()
      modifies this`heap, table, table.data
      ensures Valid() && table.data == old(table.data)
      ensures Resolved(old(Mem()), op, c, reply, mutation)
      ensures old(OneSlot(table.hash, table.data[..])) ==>
                OneSlot(table.hash, table.data[..]) && Data() == Resolve(old(Data()), op, c).store
    {
      hide Owned, OneSlot, Resolve, Contents, ReplayMem, Evictions;
      if OneSlot(table.hash, table.data[..]) { EvictedStore(table.hash, table.limit, Mem(), op, c); }
      mutation := None;
      match op {
        case Get(key) => reply := HandleGet(key, c);
        case Set(_, _, _, _, _, _) => reply, mutation := HandleSet(op, c);
        case Del(key) => reply, mutation := HandleDel(key, c);
        case Ttl(key) => reply := HandleTtl(key, c);
        case Exists(key) => reply := HandleExists(key, c);
        case Expire(_, _, _) => reply, mutation := HandleExpire(op, c);
        case IncrBy(key, delta) => reply, mutation := HandleIncrBy(key, delta, c);
      }
    }

    /** `septic_tank_digest`: resolve, apply, reply, log, in that order. */
    method Digest(op: Op, c: Clock)
      requires Valid() && DigestMem(table.hash, table.limit, Mem(), op, c).Some?
      modifies this`heap, this`next, this`replies, this`fed, table, table.data
      ensures Valid() && (table.data == old(table.data) || fresh(table.data))
      ensures Some(Mem()) == DigestMem(table.hash, table.limit, old(Mem()), op, c)
      ensures var a := AnswerMem(table.hash, old(Mem()), op, c);
              && replies == old(replies) + [a.reply]
              && fed == old(fed) + if aofEnabled then OptSeq(a.mutation) else []
    {
      hide Owned, ApplyMem, Contents, Resolve, Evictions, ReplayMem, DigestMem, AnswerMem;
      ghost var m := Mem();
      DigestSplits(table.hash, table.limit, m, op, c);
      var reply, mutation := ResolveOp(op, c);
      if !reply.Failed? && mutation.Some? { ApplyMutation(mutation.value); }
      replies := replies + [reply];
      if aofEnabled && !reply.Failed? && mutation.Some? { fed := fed + [mutation.value]; }
    }

    /** The consuming loop of `septic_tank_pump` over the messages sent so far. */
    method Pump(ops: seq<Timed>)
      requires Valid() && RunMem(table.hash, table.limit, Mem(), ops).Some?
      modifies this`heap, this`next, this`replies, this`fed, table, table.data
      ensures Valid() && (table.data == old(table.data) || fresh(table.data))
      ensures Some(Mem()) == RunMem(table.hash, table.limit, old(Mem()), ops)
      ensures replies == old(replies) + RepliesOf(MemAnswers(table.hash, table.limit, old(Mem()), ops))
      ensures fed == old(fed) + if aofEnabled then MutationsOf(MemAnswers(table.hash, table.limit, old(Mem()), ops)) else []
    {
      hide Owned, DigestMem, AnswerMem, RunMem, MemAnswers, RepliesOf, MutationsOf;
      RunEmpty(table.hash, table.limit, Mem());
      ghost var m := Mem();
      ghost var all := MemAnswers(table.hash, table.limit, m, ops);
      ghost var done: seq<Answer> := [];
      var i := 0;
      assert ops[0..] == ops && [] + all == all;
      while i < |ops|
        invariant 0 <= i <= |ops| && Valid() && (table.data == old(table.data) || fresh(table.data))
        invariant aofEnabled == old(aofEnabled)
        invariant RunMem(table.hash, table.limit, Mem(), ops[i..]) == RunMem(table.hash, table.limit, m, ops)
        invariant done + MemAnswers(table.hash, table.limit, Mem(), ops[i..]) == all
        invariant replies == old(replies) + RepliesOf(done)
        invariant fed == old(fed) + if aofEnabled then MutationsOf(done) else []
      {
        ghost var a := AnswerMem(table.hash, Mem(), ops[i].op, ops[i].clock);
        RunHead(table.hash, table.limit, Mem(), ops, i);
        Digest(ops[i].op, ops[i].clock);
        Assoc(done, [a], MemAnswers(table.hash, table.limit, Mem(), ops[i + 1..]));
        AnswersSnoc(done, a);
        done := done + [a];
        i := i + 1;
      }
      assert ops[i..] == [] && done + [] == done;
      RunEmpty(table.hash, table.limit, Mem());
    }
  }

  lemma {:induction false} MutationsAreLog(s: Store, ops: seq<Timed>)
    ensures MutationsOf(RunAnswers(s, ops)) == RunLog(s, ops)
    decreases |ops|
  {
    hide Tank.Digest;
    if ops != [] {
      var d := Tank.Digest(s, ops[0].op, ops[0].clock);
      MutationsAreLog(d.store, ops[1..]);
      assert RunAnswers(s, ops)[1..] == RunAnswers(d.store, ops[1..]);
    }
  }

  lemma StartSucceeds(hash: Hash, limit: nat, ops: seq<Timed>)
    requires Doubles(INITIAL_SIZE, limit) && limit > 0
    requires |KeysUsed(ops)| < limit / 2 && Spread(hash, KeysUsed(ops), limit)
    ensures RunMem(hash, limit, Start(), ops).Some?
    ensures Sound(Start()) && OneSlot(hash, Start().slots) && Contents(hash, Start()) == map[]
  {
    StartSound(hash);
    BlankFacts(hash, INITIAL_SIZE);
    TankSucceeds(hash, limit, Start(), KeysUsed(ops), ops);
  }

  /**
   Every run of the tank object from empty, for every hash: it answers as its memory does, and,
   unless some SET of the run meets a hole before its key, its answers, the mutations it feeds
   to the log and its final contents are those of the abstract tank.
   */
  method RunOnTable(hash: Hash, limit: nat, ops: seq<Timed>) returns (tank: SepticTank)
    requires Doubles(INITIAL_SIZE, limit) && limit > 0
    requires |KeysUsed(ops)| < limit / 2 && Spread(hash, KeysUsed(ops), limit)
    ensures tank.Valid() && tank.table.hash == hash
    ensures tank.replies == RepliesOf(MemAnswers(hash, limit, Start(), ops))
    ensures !RunMeetsHole(hash, limit, Start(), ops) ==>
              && tank.replies == RepliesOf(RunAnswers(map[], ops)) && tank.fed == RunLog(map[], ops)
              && tank.Data() == RunStore(map[], ops) && OneSlot(hash, tank.table.data[..])
  {
    tank := new SepticTank(hash, limit);
    StartSucceeds(hash, limit, ops);
    hide Owned, OneSlot, RunMem, MemAnswers, RunMeetsHole, Contents;
    tank.Pump(ops);
    if !RunMeetsHole(hash, limit, Start(), ops) {
      RunsAsAbstract(hash, limit, Start(), ops);
      MutationsAreLog(map[], ops);
    }
  }
}
