/**
 The pipeline's job queue on the growable array: what every run of pump and drains asks of it,
 and a run of the pipeline in which a drain's head removal leaves the array's block.
 */
module JobQueue {
  import opened Prelude
  import opened Tank
  import opened Aof
  import opened LogPipeline
  import H = HectorArray

  /** What a step asks of the queue: `hector_push` of a job, or `hector_splice(jobs, 0, 1)`. */
  function QueueOpOf(s: Pipe, l: Label): seq<H.QueueOp<Batch>>
    requires Enabled(s, l)
  {
    if l.Push? then [H.Enqueue(s.pump.job)] else if l.DrainGrab? then [H.Take] else []
  }

  function QueueOps(s: Pipe, ls: seq<Label>): seq<H.QueueOp<Batch>>
    requires Possible(s, ls)
    decreases |ls|
  {
    if ls == [] then [] else QueueOpOf(s, ls[0]) + QueueOps(Next(s, ls[0]), ls[1..])
  }

  lemma JobsMove(s: Pipe, l: Label)
    requires Enabled(s, l)
    ensures var t := Next(s, l);
            && (l.Push? ==> t.jobs == s.jobs + [s.pump.job])
            && (l.DrainGrab? ==> s.jobs != [] && t.jobs == s.jobs[1..])
            && (!l.Push? && !l.DrainGrab? ==> t.jobs == s.jobs)
  {
  }

  /** Every run of the pipeline is a feasible use of the array, which is as long as the queue. */
  lemma {:induction false} QueueFollows(s: Pipe, ls: seq<Label>, q: H.Shape)
    requires Possible(s, ls) && q.length == |s.jobs|
    ensures H.Feasible(q, QueueOps(s, ls)) && H.ShapeAfter(q, QueueOps(s, ls)).length == |Run(s, ls).jobs|
    decreases |ls|
  {
    if ls != [] {
      hide Enabled, Next;
      JobsMove(s, ls[0]);
      var op, rest := QueueOpOf(s, ls[0]), QueueOps(Next(s, ls[0]), ls[1..]);
      if op == [] {
        assert op + rest == rest;
        QueueFollows(Next(s, ls[0]), ls[1..], q);
      } else {
        assert (op + rest)[0] == op[0] && (op + rest)[1..] == rest;
        QueueFollows(Next(s, ls[0]), ls[1..], H.After(q, op[0]));
      }
    }
  }

  /** At most one job queued in every state of the run. */
  predicate OneJob(s: Pipe, ls: seq<Label>)
    requires Possible(s, ls)
    decreases |ls|
  {
    |s.jobs| <= 1 && (ls == [] || OneJob(Next(s, ls[0]), ls[1..]))
  }

  lemma {:induction false} OneJobAtMost(s: Pipe, ls: seq<Label>, q: H.Shape)
    requires Possible(s, ls) && OneJob(s, ls) && q.length == |s.jobs|
    ensures H.Feasible(q, QueueOps(s, ls)) && H.AtMost(q, QueueOps(s, ls), 1)
    decreases |ls|
  {
    QueueFollows(s, ls, q);
    if ls != [] {
      hide Enabled, Next;
      JobsMove(s, ls[0]);
      var op, rest := QueueOpOf(s, ls[0]), QueueOps(Next(s, ls[0]), ls[1..]);
      if op == [] {
        assert op + rest == rest;
        OneJobAtMost(Next(s, ls[0]), ls[1..], q);
      } else {
        assert (op + rest)[0] == op[0] && (op + rest)[1..] == rest;
        OneJobAtMost(Next(s, ls[0]), ls[1..], H.After(q, op[0]));
      }
    }
  }

  /** A run of the pipeline that never queues a second job keeps every removal inside the array. */
  lemma OneJobStaysInside(base: Batch, ls: seq<Label>)
    requires Possible(Init(base), ls) && OneJob(Init(base), ls)
    ensures H.Feasible(H.JobQueue(), QueueOps(Init(base), ls)) && H.StaysInside(H.JobQueue(), QueueOps(Init(base), ls))
  {
    OneJobAtMost(Init(base), ls, H.JobQueue());
    H.OneAtATimeStaysInside(H.JobQueue(), QueueOps(Init(base), ls));
  }

  // -------------------------------------------------- a run that leaves the block

  /** The run ls leads from s to t and asks `ops` of the queue. */
  ghost predicate Goes(s: Pipe, ls: seq<Label>, t: Pipe, ops: seq<H.QueueOp<Batch>>) {
    Possible(s, ls) && Run(s, ls) == t && QueueOps(s, ls) == ops
  }

  lemma {:induction false} Then(s: Pipe, a: seq<Label>, t: Pipe, f: seq<H.QueueOp<Batch>>, b: seq<Label>, u: Pipe, g: seq<H.QueueOp<Batch>>)
    requires Goes(s, a, t, f) && Goes(t, b, u, g)
    ensures Goes(s, a + b, u, f + g)
    decreases |a|
  {
    hide Enabled, Next, QueueOpOf;
    if a == [] {
      assert a + b == b && f + g == g;
    } else {
      var s', f' := Next(s, a[0]), QueueOps(Next(s, a[0]), a[1..]);
      assert (a + b)[1..] == a[1..] + b;
      Then(s', a[1..], t, f', b, u, g);
      Assoc(QueueOpOf(s, a[0]), f', g);
    }
  }

  lemma One(s: Pipe, l: Label, t: Pipe, f: seq<H.QueueOp<Batch>>)
    requires Enabled(s, l) && Next(s, l) == t && QueueOpOf(s, l) == f
    ensures Goes(s, [l], t, f)
  {
    hide Enabled, Next, QueueOpOf;
    var none: seq<Label> := [];
    assert [l][1..] == none && Possible(t, none);
    assert Possible(s, [l]) && Run(s, [l]) == Run(t, none) == t;
    assert QueueOps(t, none) == [] && QueueOps(s, [l]) == f + [];
  }

  /** Three steps through the states t and u; what they ask of the queue. */
  lemma Three(s: Pipe, a: Label, t: Pipe, b: Label, u: Pipe, c: Label, v: Pipe, f: seq<H.QueueOp<Batch>>)
    requires Enabled(s, a) && Next(s, a) == t && Enabled(t, b) && Next(t, b) == u && Enabled(u, c) && Next(u, c) == v
    requires QueueOpOf(s, a) + QueueOpOf(t, b) + QueueOpOf(u, c) == f
    ensures Goes(s, [a, b, c], v, f)
  {
    hide Enabled, Next, QueueOpOf, Goes;
    One(s, a, t, QueueOpOf(s, a));
    One(t, b, u, QueueOpOf(t, b));
    One(u, c, v, QueueOpOf(u, c));
    Then(s, [a], t, QueueOpOf(s, a), [b], u, QueueOpOf(t, b));
    Then(s, [a] + [b], u, QueueOpOf(s, a) + QueueOpOf(t, b), [c], v, QueueOpOf(u, c));
    assert [a, b, c] == [a] + [b] + [c];
  }

  predicate Resting(s: Pipe) { s.pump.Consuming? && s.waste == [] && s.channel == [] && s.mutex.Free? }

  function FlushSteps(m: Mutation): seq<Label> { [Feed(m), Consume, Poop] + [DecideFlush, MakeJob, Lock] + [Push] }

  function Flushed(s: Pipe, m: Mutation): Pipe {
    s.(pump := Testing, mutex := Pump, jobs := s.jobs + [[m]], fed := s.fed + [m])
  }

  lemma Batches(s: Pipe, m: Mutation)
    requires Resting(s)
    ensures Goes(s, [Feed(m), Consume, Poop], s.(pump := Deciding, waste := [m], fed := s.fed + [m]), [])
  {
    hide Goes;
    var s1 := s.(channel := [m], fed := s.fed + [m]);
    var s2 := s.(pump := Holding(m), fed := s.fed + [m]);
    Three(s, Feed(m), s1, Consume, s2, Poop, s.(pump := Deciding, waste := [m], fed := s.fed + [m]), []);
  }

  lemma MakesJob(s: Pipe, m: Mutation)
    requires s.pump.Deciding? && s.waste == [m] && s.mutex.Free?
    ensures Goes(s, [DecideFlush, MakeJob, Lock], s.(pump := Enqueuing([m]), waste := [], mutex := Pump), [])
  {
    hide Goes;
    var s1, s2 := s.(pump := Flushing), s.(pump := Locking([m]), waste := []);
    Three(s, DecideFlush, s1, MakeJob, s2, Lock, s.(pump := Enqueuing([m]), waste := [], mutex := Pump), []);
  }

  /** One mutation fed, batched and queued as a job. */
  lemma Flushes(s: Pipe, m: Mutation)
    requires Resting(s)
    ensures Goes(s, FlushSteps(m), Flushed(s, m), [H.Enqueue([m])])
  {
    var s3 := s.(pump := Deciding, waste := [m], fed := s.fed + [m]);
    var s6 := s3.(pump := Enqueuing([m]), waste := [], mutex := Pump);
    Batches(s, m);
    MakesJob(s3, m);
    One(s6, Push, Flushed(s, m), [H.Enqueue([m])]);
    hide Goes, Enabled, Next;
    Then(s, [Feed(m), Consume, Poop], s3, [], [DecideFlush, MakeJob, Lock], s6, []);
    Then(s, [Feed(m), Consume, Poop] + [DecideFlush, MakeJob, Lock], s6, [] + [], [Push], Flushed(s, m), [H.Enqueue([m])]);
    assert [] + [] + [H.Enqueue([m])] == [H.Enqueue([m])];
  }

  function StartSteps(id: nat): seq<Label> { [SpawnDrain(id), MarkRunning, Unlock] }

  function Started(s: Pipe, id: nat): Pipe {
    s.(drains := s.drains[id := Starting], running := true, pump := Consuming, mutex := Free)
  }

  lemma Starts(s: Pipe, id: nat)
    requires s.pump.Testing? && !s.running && id !in s.drains
    ensures Goes(s, StartSteps(id), Started(s, id), [])
  {
    hide Goes;
    var s1 := s.(drains := s.drains[id := Starting], pump := Spawned);
    var s2 := s1.(running := true, pump := Unlocking);
    Three(s, SpawnDrain(id), s1, MarkRunning, s2, Unlock, Started(s, id), []);
  }

  /** Only drain id moved, and what a drain writes: its own point, the mutex, the queue, the file. */
  predicate DrainMoved(s: Pipe, t: Pipe, id: nat, pc: DrainPc) {
    && At(t, id, pc) && t.drains.Keys == s.drains.Keys
    && t.pump == s.pump && t.waste == s.waste && t.channel == s.channel
  }

  /** The drain locks the mutex, takes the first job and unlocks it. */
  lemma Grabs(s: Pipe, id: nat, m: Mutation) returns (t: Pipe)
    requires At(s, id, Starting) && s.mutex.Free? && s.jobs == [[m]]
    ensures Goes(s, [DrainLock(id), DrainGrab(id), DrainUnlockGrab(id)], t, [H.Take])
    ensures DrainMoved(s, t, id, Writing([m], 0, [])) && t.mutex.Free? && t.jobs == []
  {
    hide Goes;
    var s1 := Next(s, DrainLock(id));
    var s2 := Next(s1, DrainGrab(id));
    t := Next(s2, DrainUnlockGrab(id));
    Three(s, DrainLock(id), s1, DrainGrab(id), s2, DrainUnlockGrab(id), t, [H.Take]);
  }

  /** It writes the job and looks for another. */
  lemma WritesOut(s: Pipe, id: nat, m: Mutation) returns (t: Pipe)
    requires At(s, id, Writing([m], 0, [])) && s.mutex.Free?
    ensures Goes(s, [Serialize(id), Close(id), DrainLock(id)], t, [])
    ensures DrainMoved(s, t, id, Looking) && t.mutex == Drain(id) && t.jobs == s.jobs
  {
    hide Goes, Encode;
    var s1 := Next(s, Serialize(id));
    var s2 := Next(s1, Close(id));
    t := Next(s2, DrainLock(id));
    Three(s, Serialize(id), s1, Close(id), s2, DrainLock(id), t, []);
  }

  /** It finds none and leaves. */
  lemma Leaves(s: Pipe, id: nat) returns (t: Pipe)
    requires At(s, id, Looking) && s.jobs == []
    ensures Goes(s, [DrainLeave(id)] + [DrainUnlockLeave(id)], t, [])
    ensures DrainMoved(s, t, id, Gone) && t.mutex.Free? && t.jobs == [] && !t.running
  {
    hide Goes;
    var s1 := Next(s, DrainLeave(id));
    t := Next(s1, DrainUnlockLeave(id));
    One(s, DrainLeave(id), s1, []);
    One(s1, DrainUnlockLeave(id), t, []);
    Then(s, [DrainLeave(id)], s1, [], [DrainUnlockLeave(id)], t, []);
    var none: seq<H.QueueOp<Batch>> := [];
    assert none + none == none;
  }

  function DrainSteps(id: nat): seq<Label> {
    [DrainLock(id), DrainGrab(id), DrainUnlockGrab(id)] + [Serialize(id), Close(id), DrainLock(id)] + ([DrainLeave(id)] + [DrainUnlockLeave(id)])
  }

  /** The drain takes the only job, writes it, finds no other and leaves. */
  lemma DrainsOne(s: Pipe, id: nat, m: Mutation) returns (t: Pipe)
    requires At(s, id, Starting) && s.mutex.Free? && s.jobs == [[m]]
    ensures Goes(s, DrainSteps(id), t, [H.Take])
    ensures DrainMoved(s, t, id, Gone) && t.mutex.Free? && t.jobs == [] && !t.running
  {
    hide Goes, Enabled, Next;
    var a, b := [DrainLock(id), DrainGrab(id), DrainUnlockGrab(id)], [Serialize(id), Close(id), DrainLock(id)];
    var s3 := Grabs(s, id, m);
    var s6 := WritesOut(s3, id, m);
    t := Leaves(s6, id);
    var none: seq<H.QueueOp<Batch>>, take: seq<H.QueueOp<Batch>> := [], [H.Take];
    Then(s, a, s3, take, b, s6, none);
    Then(s, a + b, s6, take + none, [DrainLeave(id)] + [DrainUnlockLeave(id)], t, none);
    assert take + none + none == take;
  }

  function CycleSteps(id: nat, m: Mutation): seq<Label> { FlushSteps(m) + StartSteps(id) + DrainSteps(id) }

  /** Nothing queued, nobody draining, every drain so far numbered below n. */
  predicate Ready(s: Pipe, n: nat) { Resting(s) && s.jobs == [] && !s.running && forall i :: i in s.drains ==> i < n }

  /** A mutation that is flushed, drained and done with: the queue went up to one and back. */
  lemma CycleGoes(s: Pipe, n: nat, m: Mutation) returns (t: Pipe)
    requires Ready(s, n)
    ensures Ready(t, n + 1) && Goes(s, CycleSteps(n, m), t, [H.Enqueue([m]), H.Take])
  {
    hide Goes, Enabled, Next, Encode;
    var s1 := Flushed(s, m);
    var s2 := Started(s1, n);
    Flushes(s, m);
    Starts(s1, n);
    assert s1.jobs == [[m]];
    t := DrainsOne(s2, n, m);
    Then(s, FlushSteps(m), s1, [H.Enqueue([m])], StartSteps(n), s2, []);
    Then(s, FlushSteps(m) + StartSteps(n), s2, [H.Enqueue([m])] + [], DrainSteps(n), t, [H.Take]);
    assert [H.Enqueue([m])] + [] + [H.Take] == [H.Enqueue([m]), H.Take];
  }

  function EndSteps(n: nat, m: Mutation): seq<Label> {
    FlushSteps(m) + StartSteps(n) + FlushSteps(m) + ([SeeRunning, Unlock, DrainLock(n)] + [DrainGrab(n)])
  }

  lemma SecondTaken(s: Pipe, n: nat, m: Mutation) returns (t: Pipe)
    requires s.pump.Testing? && s.running && s.mutex.Pump? && At(s, n, Starting) && s.jobs != []
    ensures Goes(s, [SeeRunning, Unlock, DrainLock(n)] + [DrainGrab(n)], t, [H.Take])
  {
    hide Goes;
    var s1, s2 := s.(pump := Unlocking), s.(pump := Consuming, mutex := Free);
    var s3 := Next(s2, DrainLock(n));
    t := Next(s3, DrainGrab(n));
    Three(s, SeeRunning, s1, Unlock, s2, DrainLock(n), s3, []);
    One(s3, DrainGrab(n), t, [H.Take]);
    Then(s, [SeeRunning, Unlock, DrainLock(n)], s3, [], [DrainGrab(n)], t, [H.Take]);
    var take: seq<H.QueueOp<Batch>> := [H.Take];
    assert [] + take == take;
  }

  /** Two jobs are queued before the drain takes the first. */
  lemma EndGoes(s: Pipe, n: nat, m: Mutation) returns (t: Pipe)
    requires Ready(s, n)
    ensures Goes(s, EndSteps(n, m), t, [H.Enqueue([m]), H.Enqueue([m]), H.Take])
  {
    hide Goes;
    var s1 := Flushed(s, m);
    var s2 := Started(s1, n);
    var s3 := Flushed(s2, m);
    t := SecondTaken(s3, n, m);
    hide Enabled, Next;
    Flushes(s, m);
    Starts(s1, n);
    Flushes(s2, m);
    var none: seq<H.QueueOp<Batch>>, put, take: seq<H.QueueOp<Batch>> := [], [H.Enqueue([m])], [H.Take];
    Then(s, FlushSteps(m), s1, put, StartSteps(n), s2, none);
    Then(s, FlushSteps(m) + StartSteps(n), s2, put + none, FlushSteps(m), s3, put);
    Then(s, FlushSteps(m) + StartSteps(n) + FlushSteps(m), s3, put + none + put, [SeeRunning, Unlock, DrainLock(n)] + [DrainGrab(n)], t, take);
    assert put + none + put + take == [H.Enqueue([m]), H.Enqueue([m]), H.Take];
  }

  lemma {:induction false} CyclesGo(s: Pipe, n: nat, k: nat, m: Mutation) returns (ls: seq<Label>, t: Pipe)
    requires Ready(s, n)
    ensures Goes(s, ls, t, H.Cycles([m], k, [H.Enqueue([m]), H.Enqueue([m]), H.Take]))
    decreases k
  {
    hide Goes, Ready, CycleSteps, EndSteps;
    var end := [H.Enqueue([m]), H.Enqueue([m]), H.Take];
    if k == 0 {
      t := EndGoes(s, n, m);
      ls := EndSteps(n, m);
    } else {
      var s1 := CycleGoes(s, n, m);
      var more;
      more, t := CyclesGo(s1, n + 1, k - 1, m);
      Then(s, CycleSteps(n, m), s1, [H.Enqueue([m]), H.Take], more, t, H.Cycles([m], k - 1, end));
      ls := CycleSteps(n, m) + more;
      assert [H.Enqueue([m]), H.Take] + H.Cycles([m], k - 1, end) == H.Cycles([m], k, end);
    }
  }

  /**
   A run of the pipeline, from startup, in which a drain's head removal reads beyond the job
   queue's block: four mutations flushed one by one, then two jobs queued at once.
   */
  lemma PipelineLeavesBlock(base: Batch, m: Mutation) returns (ls: seq<Label>)
    ensures Possible(Init(base), ls)
    ensures var ops := QueueOps(Init(base), ls); H.Feasible(H.JobQueue(), ops) && !H.StaysInside(H.JobQueue(), ops)
  {
    var t;
    ls, t := CyclesGo(Init(base), 0, 4, m);
    H.TwoJobsCanLeave<Batch>([m]);
  }
}
