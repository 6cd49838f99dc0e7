/**
 From the tank to the file: the log channel, the pump that batches mutations
 (src/potty/potty.c) and the drain threads that write batches
 (src/potty/potty_flusher.c), as a step system. Every access to the state guarded
 by `flusher_mutex` is its own step, so every interleaving of pump and drains is a run.
 */
module LogPipeline {
  import opened Prelude
  import opened Tank
  import opened Aof

  const CHANNEL_CAPACITY: nat := 100
  const FLUSH_ITEMS_THRESHOLD: nat := 500

  type Batch = seq<Mutation>

  /** Program points of `potty_pump` and the functions it calls. */
  datatype PumpPc =
    | Consuming
    | Holding(message: Mutation)
    | Deciding
    | Flushing
    | Locking(job: Batch)
    | Enqueuing(job: Batch)   // mutex held from here ...
    | Testing
    | Spawned                 // thread created, flag not set yet
    | Unlocking               // ... to here

  /** Program points of one `potty_drain` thread. */
  datatype DrainPc =
    | Starting
    | Looking                 // mutex held
    | Leaving                 // mutex held, exit test passed
    | Grabbed(job: Batch)     // mutex held
    | Writing(job: Batch, next: nat, buffer: seq<Byte>)
    | Gone

  datatype Owner = Free | Pump | Drain(id: nat)

  /**
   `base` is what the file held at startup, `fed` every mutation sent since,
   `written` those whose encoding has reached the stdio stream.
   */
  datatype Pipe = Pipe(
    channel: Batch, pump: PumpPc, waste: Batch,
    jobs: seq<Batch>, running: bool, mutex: Owner, drains: map<nat, DrainPc>,
    file: seq<Byte>, base: Batch, fed: Batch, written: Batch)

  function Init(base: Batch): Pipe {
    Pipe([], Consuming, [], [], false, Free, map[], EncodeAll(base), base, [], [])
  }

  datatype Label =
    | Feed(m: Mutation)
    | Consume | TimeOut | Poop
    | DecideFlush | DecideNot | FlushNothing | MakeJob
    | Lock | Push | SpawnDrain(id: nat) | SeeRunning | MarkRunning | Unlock
    | DrainLock(id: nat) | DrainLeave(id: nat) | DrainUnlockLeave(id: nat)
    | DrainGrab(id: nat) | DrainUnlockGrab(id: nat)
    | Serialize(id: nat) | Spill(id: nat, n: nat) | Close(id: nat)

  predicate At(s: Pipe, id: nat, pc: DrainPc) { id in s.drains && s.drains[id] == pc }

  predicate IsWriting(s: Pipe, id: nat) { id in s.drains && s.drains[id].Writing? }

  predicate Enabled(s: Pipe, l: Label) {
    match l
    case Feed(_) => |s.channel| < CHANNEL_CAPACITY
    case Consume => s.pump.Consuming? && s.channel != []
    case TimeOut => s.pump.Consuming?
    case Poop => s.pump.Holding?
    case DecideFlush => s.pump.Deciding?
    case DecideNot => s.pump.Deciding? && |s.waste| < FLUSH_ITEMS_THRESHOLD
    case FlushNothing => s.pump.Flushing? && s.waste == []
    case MakeJob => s.pump.Flushing? && s.waste != []
    case Lock => s.pump.Locking? && s.mutex.Free?
    case Push => s.pump.Enqueuing?
    case SpawnDrain(id) => s.pump.Testing? && !s.running && id !in s.drains
    case SeeRunning => s.pump.Testing? && s.running
    case MarkRunning => s.pump.Spawned?
    case Unlock => s.pump.Unlocking?
    case DrainLock(id) => At(s, id, Starting) && s.mutex.Free?
    case DrainLeave(id) => At(s, id, Looking) && s.jobs == []
    case DrainUnlockLeave(id) => At(s, id, Leaving)
    case DrainGrab(id) => At(s, id, Looking) && s.jobs != []
    case DrainUnlockGrab(id) => id in s.drains && s.drains[id].Grabbed?
    case Serialize(id) => IsWriting(s, id) && s.drains[id].next < |s.drains[id].job|
    case Spill(id, n) => IsWriting(s, id) && n <= |s.drains[id].buffer|
    case Close(id) => IsWriting(s, id) && s.drains[id].next >= |s.drains[id].job|
  }

  function Move(s: Pipe, id: nat, pc: DrainPc): Pipe { s.(drains := s.drains[id := pc]) }

  function Next(s: Pipe, l: Label): Pipe
    requires Enabled(s, l)
  {
    match l
    case Feed(m) => s.(channel := s.channel + [m], fed := s.fed + [m])
    case Consume => s.(pump := Holding(s.channel[0]), channel := s.channel[1..])
    case TimeOut => s.(pump := Deciding)
    case Poop => s.(waste := s.waste + [s.pump.message], pump := Deciding)
    case DecideFlush => s.(pump := Flushing)
    case DecideNot => s.(pump := Consuming)
    case FlushNothing => s.(pump := Consuming)
    case MakeJob => s.(pump := Locking(s.waste), waste := [])
    case Lock => s.(mutex := Pump, pump := Enqueuing(s.pump.job))
    case Push => s.(jobs := s.jobs + [s.pump.job], pump := Testing)
    case SpawnDrain(id) => Move(s, id, Starting).(pump := Spawned)
    case SeeRunning => s.(pump := Unlocking)
    case MarkRunning => s.(running := true, pump := Unlocking)
    case Unlock => s.(mutex := Free, pump := Consuming)
    case DrainLock(id) => Move(s, id, Looking).(mutex := Drain(id))
    case DrainLeave(id) => Move(s, id, Leaving).(running := false)
    case DrainUnlockLeave(id) => Move(s, id, Gone).(mutex := Free)
    case DrainGrab(id) => Move(s, id, Grabbed(s.jobs[0])).(jobs := s.jobs[1..])
    case DrainUnlockGrab(id) => Move(s, id, Writing(s.drains[id].job, 0, [])).(mutex := Free)
    case Serialize(id) =>
      var d := s.drains[id];
      Move(s, id, Writing(d.job, d.next + 1, d.buffer + Encode(d.job[d.next]))).(written := s.written + [d.job[d.next]])
    case Spill(id, n) =>
      var d := s.drains[id];
      Move(s, id, d.(buffer := d.buffer[n..])).(file := s.file + d.buffer[..n])
    case Close(id) => Move(s, id, Starting).(file := s.file + s.drains[id].buffer)
  }

  // -------------------------------------------------------------- invariant

  predicate PumpHolds(pc: PumpPc) { pc.Enqueuing? || pc.Testing? || pc.Spawned? || pc.Unlocking? }

  predicate DrainHolds(pc: DrainPc) { pc.Looking? || pc.Leaving? || pc.Grabbed? }

  /** Not yet past its exit test. */
  predicate Active(pc: DrainPc) { !pc.Leaving? && !pc.Gone? }

  ghost predicate SomeActive(s: Pipe) { exists id :: id in s.drains && Active(s.drains[id]) }

  ghost predicate Mutual(s: Pipe) {
    && (s.mutex.Pump? <==> PumpHolds(s.pump))
    && (forall id :: id in s.drains ==> (DrainHolds(s.drains[id]) <==> s.mutex == Drain(id)))
    && (s.mutex.Drain? ==> s.mutex.id in s.drains)
  }

  /** One active drain at most; the flag says whether there is one; a queued job has one coming. */
  ghost predicate Handshake(s: Pipe) {
    && (forall i, j :: i in s.drains && j in s.drains && Active(s.drains[i]) && Active(s.drains[j]) ==> i == j)
    && (SomeActive(s) <==> s.running || s.pump.Spawned?)
    && (s.pump.Spawned? ==> !s.running)
    && (s.jobs != [] ==> s.running || s.pump.Testing? || s.pump.Spawned?)
  }

  function Buffered(pc: DrainPc): seq<Byte> { if pc.Writing? then pc.buffer else [] }

  /** What a drain has taken off the queue and not yet serialized. */
  function Rest(pc: DrainPc): Batch {
    match pc
    case Grabbed(job) => job
    case Writing(job, next, _) => if next <= |job| then job[next..] else []
    case _ => []
  }

  function PumpJob(pc: PumpPc): Batch { if pc.Locking? || pc.Enqueuing? then pc.job else [] }

  function PumpMessage(pc: PumpPc): Batch { if pc.Holding? then [pc.message] else [] }

  /** In the pump or before it: its job, the active batch, its message, the channel. */
  function BeforeQueue(s: Pipe): Batch {
    PumpJob(s.pump) + s.waste + PumpMessage(s.pump) + s.channel
  }

  /** Everything behind the drain: the queued jobs, then what is not queued yet. */
  function Behind(s: Pipe): Batch { Flatten(s.jobs) + BeforeQueue(s) }

  /** Records written ++ rest of the job being written ++ everything behind == everything fed. */
  ghost predicate Conserved(s: Pipe) {
    && (forall id :: id in s.drains && Active(s.drains[id]) ==>
          s.fed == s.written + Rest(s.drains[id]) + Behind(s))
    && (!SomeActive(s) ==> s.fed == s.written + Behind(s))
  }

  /** File ++ stdio buffer is the encoding of the startup records and the records written. */
  ghost predicate BytesAgree(s: Pipe) {
    && (forall id :: id in s.drains && Active(s.drains[id]) ==>
          s.file + Buffered(s.drains[id]) == EncodeAll(s.base + s.written))
    && (!SomeActive(s) ==> s.file == EncodeAll(s.base + s.written))
  }

  /** What the file held at startup is never overwritten. */
  predicate KeepsBase(s: Pipe) { EncodeAll(s.base) <= s.file }

  predicate Bounded(s: Pipe) {
    && |s.channel| <= CHANNEL_CAPACITY
    && |s.waste| <= FLUSH_ITEMS_THRESHOLD
    && ((s.pump.Consuming? || s.pump.Holding?) ==> |s.waste| < FLUSH_ITEMS_THRESHOLD)
    && ((PumpHolds(s.pump) || s.pump.Locking?) ==> s.waste == [])
  }

  ghost predicate Inv(s: Pipe) {
    Mutual(s) && Handshake(s) && Conserved(s) && BytesAgree(s) && KeepsBase(s) && Bounded(s)
  }

  lemma InitInv(base: Batch)
    ensures Inv(Init(base))
  {
    assert base + [] == base;
  }

  /** Steps of the feeding tank and of the pump, apart from thread creation: no drain moves. */
  predicate PumpLabel(l: Label) {
    l.Feed? || l.Consume? || l.TimeOut? || l.Poop? || l.DecideFlush? || l.DecideNot? || l.FlushNothing? ||
    l.MakeJob? || l.Lock? || l.Push? || l.SeeRunning? || l.MarkRunning? || l.Unlock?
  }

  lemma PumpLeavesDrains(s: Pipe, l: Label)
    requires Enabled(s, l) && PumpLabel(l)
    ensures var t := Next(s, l);
            t.drains == s.drains && t.file == s.file && t.written == s.written && t.base == s.base
  {
  }

  lemma PumpMutual(s: Pipe, l: Label)
    requires Mutual(s) && Enabled(s, l) && PumpLabel(l)
    ensures Mutual(Next(s, l))
  {
    PumpLeavesDrains(s, l);
  }

  lemma DrainMutual(s: Pipe, l: Label)
    requires Mutual(s) && Enabled(s, l) && !PumpLabel(l)
    ensures Mutual(Next(s, l))
  {
  }

  lemma StepMutual(s: Pipe, l: Label)
    requires Mutual(s) && Enabled(s, l)
    ensures Mutual(Next(s, l))
  {
    if PumpLabel(l) { PumpMutual(s, l); } else { DrainMutual(s, l); }
  }

  lemma StepBounded(s: Pipe, l: Label)
    requires Bounded(s) && Enabled(s, l)
    ensures Bounded(Next(s, l))
  {
  }

  lemma PumpHandshake(s: Pipe, l: Label)
    requires Mutual(s) && Handshake(s) && Enabled(s, l) && PumpLabel(l)
    ensures Handshake(Next(s, l))
  {
    PumpLeavesDrains(s, l);
    assert SomeActive(Next(s, l)) == SomeActive(s);
  }

  lemma SpawnHandshake(s: Pipe, id: nat)
    requires Handshake(s) && Enabled(s, SpawnDrain(id))
    ensures Handshake(Next(s, SpawnDrain(id)))
  {
    var t := Next(s, SpawnDrain(id));
    assert Active(t.drains[id]);
  }

  lemma DrainHandshake(s: Pipe, l: Label)
    requires Mutual(s) && Handshake(s) && Enabled(s, l) && !PumpLabel(l) && !l.SpawnDrain?
    ensures Handshake(Next(s, l))
  {
    var t := Next(s, l);
    var pc, pc' := s.drains[l.id], t.drains[l.id];
    assert t.drains == s.drains[l.id := pc'];
    if l.DrainLeave? {
      assert Active(pc);
    } else {
      assert Active(pc) == Active(pc');
      assert SomeActive(s) <==> SomeActive(t) by {
        if SomeActive(s) {
          var i :| i in s.drains && Active(s.drains[i]);
          assert Active(t.drains[i]);
        }
      }
    }
  }

  lemma StepHandshake(s: Pipe, l: Label)
    requires Mutual(s) && Handshake(s) && Enabled(s, l)
    ensures Handshake(Next(s, l))
  {
    if PumpLabel(l) { PumpHandshake(s, l); }
    else if l.SpawnDrain? { SpawnHandshake(s, l.id); }
    else { DrainHandshake(s, l); }
  }

  function FedBy(l: Label): Batch { if l.Feed? then [l.m] else [] }

  /** Message by message: the pump's own moves neither lose nor reorder anything. */
  lemma PumpCarries(s: Pipe, l: Label)
    requires Enabled(s, l) && (l.Feed? || l.Consume? || l.Poop? || l.MakeJob?)
    ensures BeforeQueue(Next(s, l)) == BeforeQueue(s) + FedBy(l)
  {
    match l {
      case Consume =>
        assert [s.channel[0]] + s.channel[1..] == s.channel;
        Assoc(s.waste, [s.channel[0]], s.channel[1..]);
      case Feed(m) =>
        Assoc(PumpJob(s.pump) + s.waste + PumpMessage(s.pump), s.channel, [m]);
      case _ =>
    }
  }

  lemma PumpBeforeQueue(s: Pipe, l: Label)
    requires Bounded(s) && Enabled(s, l) && PumpLabel(l) && !l.Push?
    ensures var t := Next(s, l);
            t.jobs == s.jobs && t.fed == s.fed + FedBy(l) && BeforeQueue(t) == BeforeQueue(s) + FedBy(l)
  {
    if l.Feed? || l.Consume? || l.Poop? || l.MakeJob? {
      PumpCarries(s, l);
    } else {
      var t := Next(s, l);
      assert PumpJob(t.pump) == PumpJob(s.pump) && PumpMessage(t.pump) == PumpMessage(s.pump);
      assert BeforeQueue(s) + [] == BeforeQueue(s);
    }
  }

  lemma PushBehind(s: Pipe)
    requires Bounded(s) && Enabled(s, Push)
    ensures Behind(Next(s, Push)) == Behind(s)
  {
    var t, job := Next(s, Push), s.pump.job;
    FlattenSnoc(s.jobs, job);
    assert BeforeQueue(s) == job + s.channel && BeforeQueue(t) == s.channel;
    Assoc(Flatten(s.jobs), job, s.channel);
  }

  lemma PumpBehind(s: Pipe, l: Label)
    requires Bounded(s) && Enabled(s, l) && PumpLabel(l)
    ensures var t := Next(s, l);
            t.fed == s.fed + FedBy(l) && Behind(t) == Behind(s) + FedBy(l)
  {
    if l.Push? {
      PushBehind(s);
      assert s.fed + [] == s.fed && Behind(s) + [] == Behind(s);
    } else {
      PumpBeforeQueue(s, l);
      Assoc(Flatten(s.jobs), BeforeQueue(s), FedBy(l));
    }
  }

  lemma PumpConserved(s: Pipe, l: Label)
    requires Bounded(s) && Conserved(s) && Enabled(s, l) && PumpLabel(l)
    ensures Conserved(Next(s, l))
  {
    var t := Next(s, l);
    PumpLeavesDrains(s, l);
    PumpBehind(s, l);
    assert SomeActive(t) == SomeActive(s);
    forall id | id in t.drains && Active(t.drains[id])
      ensures t.fed == t.written + Rest(t.drains[id]) + Behind(t)
    {
      assert s.written + Rest(s.drains[id]) + (Behind(s) + FedBy(l)) == s.fed + FedBy(l);
    }
    if !SomeActive(s) {
      assert s.written + (Behind(s) + FedBy(l)) == s.fed + FedBy(l);
    }
  }

  lemma GrabPasses(s: Pipe, id: nat)
    requires Enabled(s, DrainGrab(id))
    ensures var t := Next(s, DrainGrab(id));
            s.written + Rest(s.drains[id]) + Behind(s) == t.written + Rest(t.drains[id]) + Behind(t)
  {
    var t := Next(s, DrainGrab(id));
    assert Flatten(s.jobs) == s.jobs[0] + Flatten(t.jobs);
    assert BeforeQueue(t) == BeforeQueue(s);
    Assoc(s.jobs[0], Flatten(t.jobs), BeforeQueue(s));
    Assoc(s.written, s.jobs[0], Behind(t));
    assert s.written + [] == s.written;
  }

  lemma SerializePasses(s: Pipe, id: nat)
    requires Enabled(s, Serialize(id))
    ensures var t := Next(s, Serialize(id));
            s.written + Rest(s.drains[id]) == t.written + Rest(t.drains[id])
  {
    var d := s.drains[id];
    assert d.job[d.next..] == [d.job[d.next]] + d.job[d.next + 1..];
    Assoc(s.written, [d.job[d.next]], d.job[d.next + 1..]);
  }

  /** The drain that moves passes records on without reordering, losing or repeating any. */
  lemma DrainPasses(s: Pipe, l: Label)
    requires Enabled(s, l) && !PumpLabel(l) && !l.SpawnDrain?
    ensures var t := Next(s, l);
            && t.fed == s.fed && t.base == s.base
            && s.written + Rest(s.drains[l.id]) + Behind(s) == t.written + Rest(t.drains[l.id]) + Behind(t)
  {
    var t := Next(s, l);
    if l.DrainGrab? {
      GrabPasses(s, l.id);
    } else {
      assert Behind(t) == Behind(s);
      if l.Serialize? {
        SerializePasses(s, l.id);
      } else {
        assert t.written == s.written && Rest(t.drains[l.id]) == Rest(s.drains[l.id]);
      }
    }
  }

  lemma DrainConserved(s: Pipe, l: Label)
    requires Mutual(s) && Handshake(s) && Conserved(s) && Enabled(s, l) && !PumpLabel(l) && !l.SpawnDrain?
    ensures Conserved(Next(s, l))
  {
    var t := Next(s, l);
    var id := l.id;
    var pc, pc' := s.drains[id], t.drains[id];
    assert t.drains == s.drains[id := pc'];
    DrainPasses(s, l);
    if l.DrainUnlockLeave? {
      assert forall i :: i in t.drains && Active(t.drains[i]) ==> s.drains[i] == t.drains[i];
      assert SomeActive(s) == SomeActive(t);
    } else {
      assert Active(pc);
      assert Rest(pc') == [] || Active(pc');
    }
  }

  lemma SpawnConserved(s: Pipe, id: nat)
    requires Handshake(s) && Conserved(s) && Enabled(s, SpawnDrain(id))
    ensures Conserved(Next(s, SpawnDrain(id)))
  {
    var t := Next(s, SpawnDrain(id));
    assert Rest(Starting) == [] && Behind(t) == Behind(s);
    assert s.written + [] == s.written;
  }

  lemma StepConserved(s: Pipe, l: Label)
    requires Inv(s) && Enabled(s, l)
    ensures Conserved(Next(s, l))
  {
    if PumpLabel(l) { PumpConserved(s, l); }
    else if l.SpawnDrain? { SpawnConserved(s, l.id); }
    else { DrainConserved(s, l); }
  }

  lemma SerializeBytes(s: Pipe, id: nat)
    requires Enabled(s, Serialize(id))
    requires s.file + Buffered(s.drains[id]) == EncodeAll(s.base + s.written)
    ensures var t := Next(s, Serialize(id));
            t.file + Buffered(t.drains[id]) == EncodeAll(t.base + t.written)
  {
    var d := s.drains[id];
    var m := d.job[d.next];
    EncodeAllAppend(s.base + s.written, [m]);
    EncodeAllOne(m);
    Assoc(s.base, s.written, [m]);
    Assoc(s.file, d.buffer, Encode(m));
  }

  lemma DrainBytes(s: Pipe, l: Label)
    requires Enabled(s, l) && !PumpLabel(l) && !l.SpawnDrain?
    requires s.file + Buffered(s.drains[l.id]) == EncodeAll(s.base + s.written)
    ensures var t := Next(s, l);
            t.file + Buffered(t.drains[l.id]) == EncodeAll(t.base + t.written)
  {
    if l.Serialize? {
      SerializeBytes(s, l.id);
    } else {
      var t := Next(s, l);
      assert t.base == s.base && t.written == s.written;
      var d := s.drains[l.id];
      if l.Spill? {
        assert d.buffer[..l.n] + d.buffer[l.n..] == d.buffer;
        Assoc(s.file, d.buffer[..l.n], d.buffer[l.n..]);
      }
    }
  }

  lemma PumpBytes(s: Pipe, l: Label)
    requires BytesAgree(s) && Enabled(s, l) && PumpLabel(l)
    ensures BytesAgree(Next(s, l))
  {
    PumpLeavesDrains(s, l);
    assert SomeActive(Next(s, l)) == SomeActive(s);
  }

  lemma SpawnBytes(s: Pipe, id: nat)
    requires Handshake(s) && BytesAgree(s) && Enabled(s, SpawnDrain(id))
    ensures BytesAgree(Next(s, SpawnDrain(id)))
  {
    assert s.file + [] == s.file;
  }

  /** When the one active drain moves, what holds of its bytes holds of the state. */
  lemma MovedBytes(s: Pipe, t: Pipe, id: nat)
    requires Handshake(s) && id in s.drains && Active(s.drains[id])
    requires id in t.drains && t.drains == s.drains[id := t.drains[id]]
    requires t.file + Buffered(t.drains[id]) == EncodeAll(t.base + t.written)
    ensures BytesAgree(t)
  {
    assert forall i :: i in t.drains && Active(t.drains[i]) ==> i == id;
    if !SomeActive(t) {
      assert Buffered(t.drains[id]) == [];
      assert t.file + [] == t.file;
    }
  }

  lemma LeaveBytes(s: Pipe, id: nat)
    requires BytesAgree(s) && Enabled(s, DrainUnlockLeave(id))
    ensures BytesAgree(Next(s, DrainUnlockLeave(id)))
  {
    var t := Next(s, DrainUnlockLeave(id));
    assert forall i :: i in s.drains && Active(s.drains[i]) ==> t.drains[i] == s.drains[i];
    assert SomeActive(s) == SomeActive(t);
  }

  lemma ActiveBytes(s: Pipe, l: Label)
    requires Handshake(s) && BytesAgree(s) && Enabled(s, l)
    requires !PumpLabel(l) && !l.SpawnDrain? && !l.DrainUnlockLeave?
    ensures BytesAgree(Next(s, l))
  {
    assert Active(s.drains[l.id]);
    DrainBytes(s, l);
    MovedBytes(s, Next(s, l), l.id);
  }

  lemma StepBytes(s: Pipe, l: Label)
    requires Mutual(s) && Handshake(s) && BytesAgree(s) && Enabled(s, l)
    ensures BytesAgree(Next(s, l))
  {
    if PumpLabel(l) { PumpBytes(s, l); }
    else if l.SpawnDrain? { SpawnBytes(s, l.id); }
    else if l.DrainUnlockLeave? { LeaveBytes(s, l.id); }
    else { ActiveBytes(s, l); }
  }

  lemma StepKeepsBase(s: Pipe, l: Label)
    requires KeepsBase(s) && Enabled(s, l)
    ensures KeepsBase(Next(s, l))
  {
  }

  lemma StepInv(s: Pipe, l: Label)
    requires Inv(s) && Enabled(s, l)
    ensures Inv(Next(s, l))
  {
    StepMutual(s, l);
    StepBounded(s, l);
    StepHandshake(s, l);
    StepConserved(s, l);
    StepBytes(s, l);
    StepKeepsBase(s, l);
  }

  // ------------------------------------------------------------------- runs

  predicate Possible(s: Pipe, ls: seq<Label>)
    decreases |ls|
  {
    ls == [] || (Enabled(s, ls[0]) && Possible(Next(s, ls[0]), ls[1..]))
  }

  function Run(s: Pipe, ls: seq<Label>): Pipe
    requires Possible(s, ls)
    decreases |ls|
  {
    if ls == [] then s else Run(Next(s, ls[0]), ls[1..])
  }

  lemma {:induction false} RunInv(s: Pipe, ls: seq<Label>)
    requires Inv(s) && Possible(s, ls)
    ensures Inv(Run(s, ls))
    decreases |ls|
  {
    if ls != [] {
      StepInv(s, ls[0]);
      RunInv(Next(s, ls[0]), ls[1..]);
    }
  }

  /** Exactly one drain thread has not passed its exit test. */
  ghost predicate OneActive(s: Pipe) {
    exists id :: id in s.drains && Active(s.drains[id]) &&
      forall j :: j in s.drains && Active(s.drains[j]) ==> j == id
  }

  /**
   In every reachable state: no two drains write at once; and whenever the mutex
   is free, a nonempty job queue implies `flusher_running`, which holds exactly
   when one drain has not passed its exit test. (Module LogProgress: no batch is stranded.)
   */
  lemma FlusherHandshake(base: Batch, ls: seq<Label>)
    requires Possible(Init(base), ls)
    ensures var s := Run(Init(base), ls);
            && (s.mutex.Free? ==> (s.jobs != [] ==> s.running) && (s.running <==> OneActive(s)))
            && (s.mutex.Free? ==> (s.running <==> SomeActive(s)))
            && (forall i, j :: IsWriting(s, i) && IsWriting(s, j) ==> i == j)
  {
    InitInv(base);
    RunInv(Init(base), ls);
    var s := Run(Init(base), ls);
    if SomeActive(s) {
      var id :| id in s.drains && Active(s.drains[id]);
      assert forall j :: j in s.drains && Active(s.drains[j]) ==> j == id;
    }
  }

  lemma ConservationOf(s: Pipe) returns (rest: Batch, buffer: seq<Byte>)
    requires Handshake(s) && Conserved(s) && BytesAgree(s)
    ensures s.fed == s.written + rest + Behind(s)
    ensures s.file + buffer == EncodeAll(s.base + s.written)
    ensures forall id :: IsWriting(s, id) ==> rest == Rest(s.drains[id]) && buffer == s.drains[id].buffer
  {
    rest, buffer := [], [];
    assert s.written + rest == s.written && s.file + buffer == s.file;
    if SomeActive(s) {
      var id :| id in s.drains && Active(s.drains[id]);
      rest, buffer := Rest(s.drains[id]), Buffered(s.drains[id]);
    }
  }

  /**
   Pipeline conservation in every reachable state, record for record and in order:
   written ++ rest of the job being written ++ queued jobs ++ the pump's job ++
   active batch ++ the pump's message ++ channel == everything fed; the file and the
   writer's buffer hold exactly the encoding of what was there at startup and what
   was written; the active batch never exceeds 500.
   */
  lemma PipelineConservation(base: Batch, ls: seq<Label>) returns (rest: Batch, buffer: seq<Byte>)
    requires Possible(Init(base), ls)
    ensures var s := Run(Init(base), ls);
            && s.fed == s.written + rest + Behind(s)
            && s.file + buffer == EncodeAll(s.base + s.written)
            && |s.waste| <= FLUSH_ITEMS_THRESHOLD
            && (forall id :: IsWriting(s, id) ==> rest == Rest(s.drains[id]) && buffer == s.drains[id].buffer)
  {
    InitInv(base);
    RunInv(Init(base), ls);
    rest, buffer := ConservationOf(Run(Init(base), ls));
  }
}
