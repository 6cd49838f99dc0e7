/**
 The tank on its real table, run by run: what it answers and leaves in memory for every hash
 and every run, exactly when each key keeps one slot, and that then it is the abstract tank.
 */
module TankRuns {
  import opened Prelude
  import opened Tank
  import opened HashTable
  import opened TableGrowth
  import opened TableRuns
  import opened TableTank

  /** The one entry an operation looks at. */
  function Local(e: Option<Entry>, k: DataString): Store { if e.Some? then map[k := e.value] else map[] }

  /** The removals resolving performs: an expired entry under the operation's own key. */
  function Evictions(s: Store, op: Op, c: Clock): seq<Mutation> {
    if op.key in s && op.key !in Resolve(s, op, c).store then [Remove(op.key)] else []
  }

  /** Everything an operation writes to the table: evictions, then the mutation. */
  function Writes(s: Store, op: Op, c: Clock): seq<Mutation> {
    Evictions(s, op, c) + OptSeq(Resolve(s, op, c).mutation)
  }

  /** Resolving depends on, and evicts, the operation's own key only. */
  lemma ResolveLocal(s: Store, op: Op, c: Clock)
    ensures var r, one := Resolve(s, op, c), Resolve(Local(EntryOf(s, op.key), op.key), op, c);
            && r.reply == one.reply && r.mutation == one.mutation
            && r.store == if op.key in s && op.key !in one.store then s - {op.key} else s
  {
  }

  lemma WritesLocal(s: Store, op: Op, c: Clock)
    ensures Writes(s, op, c) == Writes(Local(EntryOf(s, op.key), op.key), op, c)
  {
    ResolveLocal(s, op, c);
  }

  lemma EvictionsReplay(s: Store, op: Op, c: Clock)
    ensures Replay(s, Evictions(s, op, c)) == Resolve(s, op, c).store
  {
    ResolveLocal(s, op, c);
    var e := Evictions(s, op, c);
    if e != [] { assert e[1..] == []; }
  }

  /** A digest replays what it writes, evictions included. */
  lemma DigestReplays(s: Store, op: Op, c: Clock)
    ensures Digest(s, op, c).store == Replay(s, Writes(s, op, c))
  {
    hide Resolve;
    var e, u := Evictions(s, op, c), OptSeq(Resolve(s, op, c).mutation);
    ReplayAppend(s, e, u);
    EvictionsReplay(s, op, c);
    if u != [] { ReplaySnoc(Replay(s, e), [], u[0]); assert [] + u == u; }
  }

  // -------------------------------------------------------------- the runs

  /** What the tank looks at: the entry the table leads to. */
  function Looked(hash: Hash, m: Memory, op: Op): Store
    requires Big(m.slots)
  {
    Local(Seen(hash, m, op.key), op.key)
  }

  /** `septic_tank_digest` on memory; None when the table could not grow. */
  function DigestMem(hash: Hash, limit: nat, m: Memory, op: Op, c: Clock): (r: Option<Memory>)
    requires Big(m.slots)
    ensures r.Some? ==> Big(r.value.slots)
  {
    ReplayMem(hash, limit, m, Writes(Looked(hash, m, op), op, c))
  }

  function AnswerMem(hash: Hash, m: Memory, op: Op, c: Clock): Answer
    requires Big(m.slots)
  {
    var r := Resolve(Looked(hash, m, op), op, c);
    Answer(r.reply, r.mutation)
  }

  function RunMem(hash: Hash, limit: nat, m: Memory, ops: seq<Timed>): (r: Option<Memory>)
    requires Big(m.slots)
    ensures r.Some? ==> Big(r.value.slots)
    decreases |ops|
  {
    if ops == [] then Some(m)
    else
      var r := DigestMem(hash, limit, m, ops[0].op, ops[0].clock);
      if r.None? then None else RunMem(hash, limit, r.value, ops[1..])
  }

  function MemAnswers(hash: Hash, limit: nat, m: Memory, ops: seq<Timed>): seq<Answer>
    requires Big(m.slots)
    decreases |ops|
  {
    if ops == [] then []
    else
      var r := DigestMem(hash, limit, m, ops[0].op, ops[0].clock);
      [AnswerMem(hash, m, ops[0].op, ops[0].clock)] +
      if r.None? then [] else MemAnswers(hash, limit, r.value, ops[1..])
  }

  predicate DigestMeetsHole(hash: Hash, limit: nat, m: Memory, op: Op, c: Clock)
    requires Big(m.slots)
  {
    ReplayMeetsHole(hash, limit, m, Writes(Looked(hash, m, op), op, c))
  }

  /** Some SET the run applies meets a hole before its key. */
  predicate RunMeetsHole(hash: Hash, limit: nat, m: Memory, ops: seq<Timed>)
    requires Big(m.slots)
    decreases |ops|
  {
    ops != [] &&
    (DigestMeetsHole(hash, limit, m, ops[0].op, ops[0].clock) ||
     var r := DigestMem(hash, limit, m, ops[0].op, ops[0].clock);
     r.Some? && RunMeetsHole(hash, limit, r.value, ops[1..]))
  }

  /** One slot per key before the run and after every write of every operation. */
  ghost predicate RunOneSlot(hash: Hash, limit: nat, m: Memory, ops: seq<Timed>)
    requires Big(m.slots)
    decreases |ops|
  {
    OneSlot(hash, m.slots) &&
    (ops == [] ||
     (OneSlotThroughout(hash, limit, m.slots, OpsOf(Writes(Looked(hash, m, ops[0].op), ops[0].op, ops[0].clock), m.next)) &&
      var r := DigestMem(hash, limit, m, ops[0].op, ops[0].clock);
      r.Some? ==> RunOneSlot(hash, limit, r.value, ops[1..])))
  }

  lemma {:induction false} ThroughoutEnds(hash: Hash, limit: nat, s: seq<Slot>, ops: seq<TableOp>)
    requires Big(s) && OneSlotThroughout(hash, limit, s, ops) && SlotsAfter(hash, limit, s, ops).Some?
    ensures OneSlot(hash, SlotsAfter(hash, limit, s, ops).value)
    decreases |ops|
  {
    hide OneSlot;
    if ops != [] { ThroughoutEnds(hash, limit, SlotStep(hash, limit, s, ops[0]).value.slots, ops[1..]); }
  }

  /** Every run of the tank: each key keeps one slot all along if and only if no SET meets a hole before its key. */
  lemma {:induction false} RunOneSlotExactlyWhen(hash: Hash, limit: nat, m: Memory, ops: seq<Timed>)
    requires Big(m.slots) && OneSlot(hash, m.slots)
    ensures RunOneSlot(hash, limit, m, ops) <==> !RunMeetsHole(hash, limit, m, ops)
    decreases |ops|
  {
    hide OneSlot, MeetsHole, Writes, OneSlotThroughout, SlotsAfter;
    if ops != [] {
      var us := Writes(Looked(hash, m, ops[0].op), ops[0].op, ops[0].clock);
      OneSlotExactlyWhen(hash, limit, m.slots, OpsOf(us, m.next));
      var r := DigestMem(hash, limit, m, ops[0].op, ops[0].clock);
      ReplaySlots(hash, limit, m, us);
      if r.Some? && OneSlotThroughout(hash, limit, m.slots, OpsOf(us, m.next)) {
        ThroughoutEnds(hash, limit, m.slots, OpsOf(us, m.next));
        RunOneSlotExactlyWhen(hash, limit, r.value, ops[1..]);
      }
    }
  }

  // ------------------------------------------------ against the abstract tank

  /** For every table, the answer is what the abstract tank answers on the contents. */
  lemma AnswersFromContents(hash: Hash, m: Memory, op: Op, c: Clock)
    requires Big(m.slots)
    ensures var s := Contents(hash, m);
            && AnswerMem(hash, m, op, c) == Answer(Digest(s, op, c).reply, Digest(s, op, c).mutation)
            && Writes(Looked(hash, m, op), op, c) == Writes(s, op, c)
  {
    hide Seen, Contents;
    ContentsAt(hash, m, op.key);
    ResolveLocal(Contents(hash, m), op, c);
    WritesLocal(Contents(hash, m), op, c);
  }

  /** Resolving alone, on a table with one slot per key, leaves the contents the specification says. */
  lemma EvictedStore(hash: Hash, limit: nat, m: Memory, op: Op, c: Clock)
    requires Sound(m) && OneSlot(hash, m.slots)
    ensures var s := Contents(hash, m);
            var r := ReplayMem(hash, limit, m, Evictions(s, op, c));
            r.Some? && OneSlot(hash, r.value.slots) && Contents(hash, r.value) == Resolve(s, op, c).store
  {
    hide Resolve, OneSlot, Owned, Contents, HeapAfter, Erased;
    var s := Contents(hash, m);
    var us := Evictions(s, op, c);
    EvictionsReplay(s, op, c);
    if us != [] { ReplayOne(hash, limit, m, Remove(op.key)); }
    ReplayOnTable(hash, limit, m, us);
  }

  /** One operation that meets no hole: answer, mutation and contents are those of the abstract tank. */
  lemma DigestOnTable(hash: Hash, limit: nat, m: Memory, op: Op, c: Clock)
    requires Sound(m) && OneSlot(hash, m.slots)
    requires DigestMem(hash, limit, m, op, c).Some? && !DigestMeetsHole(hash, limit, m, op, c)
    ensures var r, d := DigestMem(hash, limit, m, op, c).value, Digest(Contents(hash, m), op, c);
            && Sound(r) && OneSlot(hash, r.slots) && Contents(hash, r) == d.store
            && AnswerMem(hash, m, op, c) == Answer(d.reply, d.mutation)
  {
    hide OneSlot, Owned, Writes, Resolve, ReplayMeetsHole, Contents;
    var s := Contents(hash, m);
    AnswersFromContents(hash, m, op, c);
    ReplayOnTable(hash, limit, m, Writes(s, op, c));
    DigestReplays(s, op, c);
  }

  /**
   Every run of the tank on the real table in which no SET meets a hole before its key: the
   answers, the mutations and the final store are those of the abstract tank.
   */
  lemma {:induction false} RunsAsAbstract(hash: Hash, limit: nat, m: Memory, ops: seq<Timed>)
    requires Sound(m) && OneSlot(hash, m.slots)
    requires RunMem(hash, limit, m, ops).Some? && !RunMeetsHole(hash, limit, m, ops)
    ensures MemAnswers(hash, limit, m, ops) == RunAnswers(Contents(hash, m), ops)
    ensures var r := RunMem(hash, limit, m, ops).value;
            Sound(r) && OneSlot(hash, r.slots) && Contents(hash, r) == RunStore(Contents(hash, m), ops)
    decreases |ops|
  {
    hide OneSlot, Owned, DigestMem, DigestMeetsHole, Digest, AnswerMem, Contents;
    if ops != [] {
      DigestOnTable(hash, limit, m, ops[0].op, ops[0].clock);
      RunsAsAbstract(hash, limit, DigestMem(hash, limit, m, ops[0].op, ops[0].clock).value, ops[1..]);
    }
  }

  /** For every run, holes or not: every entry in memory is owned by one slot, and no freed one is used. */
  lemma {:induction false} RunSound(hash: Hash, limit: nat, m: Memory, ops: seq<Timed>)
    requires Sound(m) && RunMem(hash, limit, m, ops).Some?
    ensures Sound(RunMem(hash, limit, m, ops).value)
    decreases |ops|
  {
    hide Owned, Writes;
    if ops != [] {
      ReplaySound(hash, limit, m, Writes(Looked(hash, m, ops[0].op), ops[0].op, ops[0].clock));
      RunSound(hash, limit, DigestMem(hash, limit, m, ops[0].op, ops[0].clock).value, ops[1..]);
    }
  }

  // ------------------------------------------------------------ growth ends

  function KeysUsed(ops: seq<Timed>): set<Key> { set i | 0 <= i < |ops| :: ops[i].op.key }

  lemma {:induction false} OpsOfKeys(us: seq<Mutation>, next: Pointer, keys: set<Key>)
    requires forall i :: 0 <= i < |us| ==> us[i].key in keys
    ensures forall i :: 0 <= i < |OpsOf(us, next)| ==> OpsOf(us, next)[i].key in keys
    ensures |OpsOf(us, next)| == |us|
    decreases |us|
  {
    if us != [] { OpsOfKeys(us[1..], if us[0].SetTo? then next + 1 else next, keys); }
  }

  lemma WritesKey(s: Store, op: Op, c: Clock)
    ensures forall i :: 0 <= i < |Writes(s, op, c)| ==> Writes(s, op, c)[i].key == op.key
  {
  }

  lemma {:induction false} RunKeepsGrowable(hash: Hash, limit: nat, s: seq<Slot>, keys: set<Key>, ops: seq<TableOp>)
    requires Big(s) && Growable(hash, s, keys, limit) && forall i :: 0 <= i < |ops| ==> ops[i].key in keys
    ensures SlotsAfter(hash, limit, s, ops).Some? && Growable(hash, SlotsAfter(hash, limit, s, ops).value, keys, limit)
    decreases |ops|
  {
    if ops != [] {
      StepSucceeds(hash, limit, s, keys, ops[0]);
      RunKeepsGrowable(hash, limit, SlotStep(hash, limit, s, ops[0]).value.slots, keys, ops[1..]);
    }
  }

  /** If at some doubled size the keys of the run have distinct homes, no growth of the table fails. */
  lemma {:induction false} TankSucceeds(hash: Hash, limit: nat, m: Memory, keys: set<Key>, ops: seq<Timed>)
    requires Big(m.slots) && Growable(hash, m.slots, keys, limit)
    requires forall i :: 0 <= i < |ops| ==> ops[i].op.key in keys
    ensures RunMem(hash, limit, m, ops).Some?
    decreases |ops|
  {
    hide Writes, SlotsAfter;
    if ops != [] {
      var us := Writes(Looked(hash, m, ops[0].op), ops[0].op, ops[0].clock);
      WritesKey(Looked(hash, m, ops[0].op), ops[0].op, ops[0].clock);
      OpsOfKeys(us, m.next, keys);
      RunKeepsGrowable(hash, limit, m.slots, keys, OpsOf(us, m.next));
      ReplaySlots(hash, limit, m, us);
      TankSucceeds(hash, limit, DigestMem(hash, limit, m, ops[0].op, ops[0].clock).value, keys, ops[1..]);
    }
  }

  // ------------------------------------------- conditions a caller can check

  lemma {:induction false} HomesKept(hash: Hash, limit: nat, s: seq<Slot>, keys: set<Key>, ops: seq<TableOp>)
    requires Big(s) && Growable(hash, s, keys, |s|) && forall i :: 0 <= i < |ops| ==> ops[i].key in keys
    ensures !MeetsHole(hash, limit, s, ops) && SlotsAfter(hash, limit, s, ops).Some?
    ensures var t := SlotsAfter(hash, limit, s, ops).value; |t| == |s| && Growable(hash, t, keys, |t|)
    decreases |ops|
  {
    if ops != [] {
      StepKeepsHomes(hash, limit, s, keys, ops[0]);
      HomesKept(hash, limit, SlotStep(hash, limit, s, ops[0]).value.slots, keys, ops[1..]);
    }
  }

  /**
   Keys with distinct home slots among the first 256 and fewer than 128 of them: no run meets
   a hole, whatever it deletes or lets expire, and the table never grows.
   */
  lemma {:induction false} OwnHomesNeverMeetHole(hash: Hash, limit: nat, m: Memory, keys: set<Key>, ops: seq<Timed>)
    requires Big(m.slots) && Growable(hash, m.slots, keys, |m.slots|)
    requires forall i :: 0 <= i < |ops| ==> ops[i].op.key in keys
    ensures !RunMeetsHole(hash, limit, m, ops) && RunMem(hash, limit, m, ops).Some?
    decreases |ops|
  {
    hide Writes, SlotsAfter, MeetsHole;
    if ops != [] {
      var us := Writes(Looked(hash, m, ops[0].op), ops[0].op, ops[0].clock);
      WritesKey(Looked(hash, m, ops[0].op), ops[0].op, ops[0].clock);
      OpsOfKeys(us, m.next, keys);
      HomesKept(hash, limit, m.slots, keys, OpsOf(us, m.next));
      ReplaySlots(hash, limit, m, us);
      OwnHomesNeverMeetHole(hash, limit, DigestMem(hash, limit, m, ops[0].op, ops[0].clock).value, keys, ops[1..]);
    }
  }

  /** The operation removes nothing and sets no deadline. */
  predicate Lasting(op: Op) {
    !op.Del? && !op.Expire? && (op.Set? ==> !op.expiration.UnixTs?)
  }

  predicate NoDeadlines(m: Memory) { forall a :: a in m.heap ==> m.heap[a].expiresAt.None? }

  lemma LastingWrites(s: Store, op: Op, c: Clock)
    requires Lasting(op) && forall k :: k in s ==> s[k].expiresAt.None?
    ensures Evictions(s, op, c) == []
    ensures var u := Resolve(s, op, c).mutation; u.Some? ==> u.value.SetTo? && u.value.expiresAt == NO_EXPIRY
  {
  }

  lemma StoredOneSlot(hash: Hash, limit: nat, s: seq<Slot>, k: Key, v: Pointer)
    requires Big(s) && OneSlot(hash, s) && !HoleMet(hash, s, k) && PutSlots(hash, limit, s, k, v).Some?
    ensures OneSlot(hash, PutSlots(hash, limit, s, k, v).value.slots)
  {
    PutOneSlotExactlyWhen(hash, limit, s, k, v);
  }

  lemma LastingApply(hash: Hash, limit: nat, m: Memory, u: Mutation)
    requires Big(m.slots) && OneSlot(hash, m.slots) && Tight(hash, m.slots) && NoDeadlines(m)
    requires u.SetTo? && u.expiresAt == NO_EXPIRY
    ensures !MutationMeetsHole(hash, m, u)
    ensures var r := ApplyMem(hash, limit, m, u);
            r.Some? ==> OneSlot(hash, r.value.slots) && Tight(hash, r.value.slots) && NoDeadlines(r.value)
  {
    hide OneSlot, Tight, PutSlots, HoleBefore, Probe, Find;
    TightHasNoHole(hash, m.slots, u.key);
    if ApplyMem(hash, limit, m, u).Some? {
      PutStores(hash, limit, m.slots, u.key, m.next);
      StoredOneSlot(hash, limit, m.slots, u.key, m.next);
    }
  }

  lemma LastingReplay(hash: Hash, limit: nat, m: Memory, us: seq<Mutation>)
    requires Big(m.slots) && OneSlot(hash, m.slots) && Tight(hash, m.slots) && NoDeadlines(m)
    requires us == [] || (us == [us[0]] && us[0].SetTo? && us[0].expiresAt == NO_EXPIRY)
    ensures !ReplayMeetsHole(hash, limit, m, us)
    ensures var r := ReplayMem(hash, limit, m, us);
            r.Some? ==> OneSlot(hash, r.value.slots) && Tight(hash, r.value.slots) && NoDeadlines(r.value)
  {
    hide OneSlot, Tight, ApplyMem, MutationMeetsHole, NoDeadlines;
    if us != [] {
      assert us[1..] == [];
      LastingApply(hash, limit, m, us[0]);
      ReplayMeetsHoleCons(hash, limit, m, us);
    }
  }

  lemma LastingStep(hash: Hash, limit: nat, m: Memory, op: Op, c: Clock)
    requires Big(m.slots) && OneSlot(hash, m.slots) && Tight(hash, m.slots) && NoDeadlines(m) && Lasting(op)
    ensures !DigestMeetsHole(hash, limit, m, op, c)
    ensures var r := DigestMem(hash, limit, m, op, c);
            r.Some? ==> OneSlot(hash, r.value.slots) && Tight(hash, r.value.slots) && NoDeadlines(r.value)
  {
    hide Resolve, OneSlot, Tight, ReplayMem, ReplayMeetsHole, Lookup;
    LastingWrites(Looked(hash, m, op), op, c);
    LastingReplay(hash, limit, m, Writes(Looked(hash, m, op), op, c));
  }

  /** A run without DEL, EXPIRE and deadlines never meets a hole. */
  lemma {:induction false} LastingNeverMeetHole(hash: Hash, limit: nat, m: Memory, ops: seq<Timed>)
    requires Big(m.slots) && OneSlot(hash, m.slots) && Tight(hash, m.slots) && NoDeadlines(m)
    requires forall i :: 0 <= i < |ops| ==> Lasting(ops[i].op)
    ensures !RunMeetsHole(hash, limit, m, ops)
    decreases |ops|
  {
    hide OneSlot, Tight, NoDeadlines, DigestMem, DigestMeetsHole;
    if ops != [] {
      LastingStep(hash, limit, m, ops[0].op, ops[0].clock);
      var r := DigestMem(hash, limit, m, ops[0].op, ops[0].clock);
      if r.Some? { LastingNeverMeetHole(hash, limit, r.value, ops[1..]); }
    }
  }

  lemma {:induction false} OpsOfNoRemoval(us: seq<Mutation>, next: Pointer)
    requires forall i :: 0 <= i < |us| ==> !us[i].Remove?
    ensures forall i :: 0 <= i < |OpsOf(us, next)| ==> !OpsOf(us, next)[i].RemoveOp?
    decreases |us|
  {
    if us != [] { OpsOfNoRemoval(us[1..], if us[0].SetTo? then next + 1 else next); }
  }

  /** Replaying a log without DEL records never meets a hole: replay evicts nothing. */
  lemma ReplayWithoutDelNeverMeetsHole(hash: Hash, limit: nat, us: seq<Mutation>)
    requires forall i :: 0 <= i < |us| ==> !us[i].Remove?
    ensures !ReplayMeetsHole(hash, limit, Start(), us)
  {
    StartSound(hash);
    OpsOfNoRemoval(us, 0);
    NoRemovalNoHole(hash, limit, Start().slots, OpsOf(us, 0));
  }
}
