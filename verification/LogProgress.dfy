/**
 Nothing fed to the log is stranded: a distance to the file that every working step of pump
 and drains shrinks, a working step in every state that is not at rest, and hence a run
 without further feeding after which the file holds everything fed.
 */
module LogProgress {
  import opened Prelude
  import opened Tank
  import opened Aof
  import opened LogPipeline

  // ---------------------------------------------------------------- distance

  function JobsCost(jobs: seq<Batch>): nat {
    if jobs == [] then 0 else |jobs[0]| + 4 + JobsCost(jobs[1..])
  }

  lemma {:induction false} JobsCostSnoc(jobs: seq<Batch>, job: Batch)
    ensures JobsCost(jobs + [job]) == JobsCost(jobs) + |job| + 4
    decreases |jobs|
  {
    if jobs == [] {
      assert jobs + [job] == [job] && [job][1..] == [];
    } else {
      assert (jobs + [job])[1..] == jobs[1..] + [job];
      JobsCostSnoc(jobs[1..], job);
    }
  }

  /** Steps a drain still has to take before it can leave. */
  function DrainCost(pc: DrainPc): nat {
    match pc
    case Starting => 3
    case Looking => 2
    case Grabbed(job) => |job| + 5
    case Writing(job, next, _) => if next <= |job| then |job| - next + 4 else 4
    case _ => 0
  }

  function PumpCost(pc: PumpPc, waste: Batch): nat {
    match pc
    case Consuming => if waste == [] then 0 else 6
    case Holding(_) => 19
    case Deciding => 5
    case Flushing => 4
    case Locking(job) => 12 + |job|
    case Enqueuing(job) => 11 + |job|
    case Testing => 6
    case Spawned => 2
    case Unlocking => 1
  }

  /** A drain past its exit test that still holds the mutex. */
  function LeaveCost(s: Pipe): nat {
    if s.mutex.Drain? && s.mutex.id in s.drains && s.drains[s.mutex.id].Leaving? then 1 else 0
  }

  ghost function ActiveCost(s: Pipe): nat {
    if SomeActive(s) then var id :| id in s.drains && Active(s.drains[id]); DrainCost(s.drains[id]) else 0
  }

  /** How much work is left before everything fed is in the file and every thread rests. */
  ghost function Distance(s: Pipe): nat {
    20 * |s.channel| + 13 * |s.waste| + PumpCost(s.pump, s.waste) + JobsCost(s.jobs) + LeaveCost(s) + ActiveCost(s)
  }

  lemma ActiveIs(s: Pipe, id: nat)
    requires Handshake(s) && id in s.drains && Active(s.drains[id])
    ensures ActiveCost(s) == DrainCost(s.drains[id])
  {
  }

  lemma NoneActive(s: Pipe)
    requires !SomeActive(s)
    ensures ActiveCost(s) == 0
  {
  }

  // ----------------------------------------------------------- working steps

  /** Any step but feeding, spilling part of a buffer, and idling. */
  predicate Working(s: Pipe, l: Label) {
    !l.Feed? && !l.Spill? && !l.DecideNot? && (l.TimeOut? ==> s.waste != [])
  }

  lemma SameActive(s: Pipe, t: Pipe)
    requires Handshake(s) && Handshake(t) && t.drains == s.drains
    ensures ActiveCost(t) == ActiveCost(s)
  {
    if SomeActive(s) {
      var id :| id in s.drains && Active(s.drains[id]);
      ActiveIs(s, id);
      ActiveIs(t, id);
    }
  }

  lemma PumpNotLeaving(s: Pipe, l: Label)
    requires Mutual(s) && Enabled(s, l) && PumpLabel(l)
    ensures LeaveCost(Next(s, l)) == LeaveCost(s)
  {
    PumpLeavesDrains(s, l);
  }

  lemma PumpShrinks(s: Pipe, l: Label)
    requires Inv(s) && Enabled(s, l) && PumpLabel(l) && Working(s, l)
    ensures Distance(Next(s, l)) < Distance(s)
  {
    var t := Next(s, l);
    StepHandshake(s, l);
    PumpLeavesDrains(s, l);
    SameActive(s, t);
    hide ActiveCost, Handshake, Mutual, Conserved, BytesAgree, KeepsBase;
    if l.Push? { JobsCostSnoc(s.jobs, s.pump.job); }
    assert LeaveCost(t) == LeaveCost(s) by { PumpNotLeaving(s, l); }
  }

  lemma SpawnShrinks(s: Pipe, id: nat)
    requires Inv(s) && Enabled(s, SpawnDrain(id))
    ensures Distance(Next(s, SpawnDrain(id))) < Distance(s)
  {
    var t := Next(s, SpawnDrain(id));
    StepHandshake(s, SpawnDrain(id));
    ActiveIs(t, id);
    NoneActive(s);
    assert LeaveCost(t) == 0;
  }

  /** A drain that was not active and is not active: the active one is untouched. */
  lemma SameOthers(s: Pipe, t: Pipe, id: nat)
    requires Handshake(s) && Handshake(t) && id in s.drains && !Active(s.drains[id])
    requires id in t.drains && t.drains == s.drains[id := t.drains[id]] && !Active(t.drains[id])
    ensures ActiveCost(t) == ActiveCost(s)
  {
    if SomeActive(s) {
      var j :| j in s.drains && Active(s.drains[j]);
      assert t.drains[j] == s.drains[j];
      ActiveIs(s, j);
      ActiveIs(t, j);
    } else {
      assert forall j :: j in t.drains && j != id ==> j in s.drains && s.drains[j] == t.drains[j];
      NoneActive(s);
      NoneActive(t);
    }
  }

  lemma OnlyOne(s: Pipe, t: Pipe, id: nat)
    requires Handshake(s) && id in s.drains && Active(s.drains[id])
    requires id in t.drains && t.drains == s.drains[id := t.drains[id]] && !Active(t.drains[id])
    ensures !SomeActive(t)
  {
    assert forall j :: j in t.drains && j != id ==> j in s.drains && s.drains[j] == t.drains[j];
  }

  lemma LeaveShrinks(s: Pipe, id: nat, l: Label)
    requires Inv(s) && (l == DrainLeave(id) || l == DrainUnlockLeave(id)) && Enabled(s, l)
    ensures Distance(Next(s, l)) < Distance(s)
  {
    var t := Next(s, l);
    StepHandshake(s, l);
    if l.DrainLeave? {
      ActiveIs(s, id);
      assert !SomeActive(t) by { OnlyOne(s, t, id); }
      NoneActive(t);
    } else {
      SameOthers(s, t, id);
    }
  }

  lemma ActiveNotLeaving(s: Pipe, l: Label)
    requires Mutual(s) && Enabled(s, l) && !PumpLabel(l)
    requires !l.SpawnDrain? && !l.DrainLeave? && !l.DrainUnlockLeave?
    ensures LeaveCost(Next(s, l)) <= LeaveCost(s)
  {
  }

  lemma DrainShrinks(s: Pipe, l: Label)
    requires Inv(s) && Enabled(s, l) && !PumpLabel(l) && Working(s, l)
    requires !l.SpawnDrain? && !l.DrainLeave? && !l.DrainUnlockLeave?
    ensures Distance(Next(s, l)) < Distance(s)
  {
    var t := Next(s, l);
    StepHandshake(s, l);
    ActiveIs(s, l.id);
    ActiveIs(t, l.id);
    assert LeaveCost(t) <= LeaveCost(s) by { ActiveNotLeaving(s, l); }
    hide ActiveCost, Handshake, Mutual, Conserved, BytesAgree, KeepsBase, LeaveCost, EncodeAll, Encode;
  }

  /** Every working step brings everything closer to the file. */
  lemma WorkShrinks(s: Pipe, l: Label)
    requires Inv(s) && Enabled(s, l) && Working(s, l)
    ensures Distance(Next(s, l)) < Distance(s)
  {
    hide Inv, Distance;
    if PumpLabel(l) { PumpShrinks(s, l); }
    else if l.SpawnDrain? { SpawnShrinks(s, l.id); }
    else if l.DrainLeave? || l.DrainUnlockLeave? { LeaveShrinks(s, l.id, l); }
    else { DrainShrinks(s, l); }
  }

  /** Spilling part of a buffer moves those bytes to the file and adds no work. */
  lemma SpillKeeps(s: Pipe, id: nat, n: nat)
    requires Inv(s) && Enabled(s, Spill(id, n))
    ensures Distance(Next(s, Spill(id, n))) <= Distance(s)
    ensures Next(s, Spill(id, n)).file == s.file + s.drains[id].buffer[..n]
  {
    var t := Next(s, Spill(id, n));
    StepHandshake(s, Spill(id, n));
    ActiveIs(s, id);
    ActiveIs(t, id);
    ActiveNotLeaving(s, Spill(id, n));
  }

  // -------------------------------------------------------------- scheduling

  /** An identifier above all of these. */
  lemma {:induction false} Above(ids: set<nat>) returns (bound: nat)
    ensures forall x :: x in ids ==> x < bound
    decreases |ids|
  {
    if ids == {} { return 0; }
    var x :| x in ids;
    var b := Above(ids - {x});
    bound := if x < b then b else x + 1;
    assert forall y :: y in ids ==> y == x || y in ids - {x};
  }

  /** Nothing in the channel, the batch or the queue, and no drain that has not passed its exit test. */
  ghost predicate AtRest(s: Pipe) {
    !SomeActive(s) && s.mutex.Free? && s.pump.Consuming? && s.channel == [] && s.waste == [] && s.jobs == []
  }

  lemma PumpHolding(s: Pipe) returns (l: Label)
    requires Mutual(s) && Handshake(s) && s.mutex.Pump?
    ensures Enabled(s, l) && Working(s, l)
  {
    match s.pump {
      case Enqueuing(_) => l := Push;
      case Testing =>
        var id := Above(s.drains.Keys);
        assert id !in s.drains;
        l := if s.running then SeeRunning else SpawnDrain(id);
      case Spawned => l := MarkRunning;
      case Unlocking => l := Unlock;
    }
  }

  lemma DrainHolding(s: Pipe) returns (l: Label)
    requires Mutual(s) && s.mutex.Drain?
    ensures Enabled(s, l) && Working(s, l)
  {
    var id := s.mutex.id;
    match s.drains[id] {
      case Looking => l := if s.jobs == [] then DrainLeave(id) else DrainGrab(id);
      case Leaving => l := DrainUnlockLeave(id);
      case Grabbed(_) => l := DrainUnlockGrab(id);
    }
  }

  lemma MutexFree(s: Pipe) returns (l: Label)
    requires Mutual(s) && Handshake(s) && s.mutex.Free? && !AtRest(s)
    ensures Enabled(s, l) && Working(s, l)
  {
    if SomeActive(s) {
      var id :| id in s.drains && Active(s.drains[id]);
      match s.drains[id] {
        case Writing(job, next, _) => l := if next < |job| then Serialize(id) else Close(id);
        case Starting => l := DrainLock(id);
      }
    } else {
      match s.pump {
        case Consuming => l := if s.channel != [] then Consume else TimeOut;
        case Holding(_) => l := Poop;
        case Deciding => l := DecideFlush;
        case Flushing => l := if s.waste == [] then FlushNothing else MakeJob;
        case Locking(_) => l := Lock;
      }
    }
  }

  /** Unless everything is at rest, some thread can take a working step. */
  lemma CanWork(s: Pipe) returns (l: Label)
    requires Inv(s) && !AtRest(s)
    ensures Enabled(s, l) && Working(s, l)
  {
    hide AtRest, Enabled, Working, Mutual, Handshake, Conserved, BytesAgree, KeepsBase, Bounded;
    match s.mutex {
      case Pump => l := PumpHolding(s);
      case Drain(_) => l := DrainHolding(s);
      case Free => l := MutexFree(s);
    }
  }

  /** Every step of the run is a working one or a spill: nobody feeds, nobody idles. */
  predicate Busy(s: Pipe, ls: seq<Label>)
    requires Possible(s, ls)
    decreases |ls|
  {
    ls == [] || ((Working(s, ls[0]) || ls[0].Spill?) && Busy(Next(s, ls[0]), ls[1..]))
  }

  function WorkDone(ls: seq<Label>): nat {
    if ls == [] then 0 else (if ls[0].Spill? then 0 else 1) + WorkDone(ls[1..])
  }

  /**
   Whatever the schedule: a run in which nobody feeds and nobody idles takes at most
   `Distance` working steps, and unless it has come to rest it can go on.
   */
  lemma {:induction false} EveryScheduleEnds(s: Pipe, ls: seq<Label>)
    requires Inv(s) && Possible(s, ls) && Busy(s, ls)
    ensures Inv(Run(s, ls)) && WorkDone(ls) + Distance(Run(s, ls)) <= Distance(s)
    ensures AtRest(Run(s, ls)) || exists l :: Enabled(Run(s, ls), l) && Working(Run(s, ls), l)
    decreases |ls|
  {
    hide Inv, AtRest, Distance, Enabled, Working, Next;
    if ls == [] {
      if !AtRest(s) { var l := CanWork(s); }
    } else {
      StepInv(s, ls[0]);
      if ls[0].Spill? { SpillKeeps(s, ls[0].id, ls[0].n); } else { WorkShrinks(s, ls[0]); }
      EveryScheduleEnds(Next(s, ls[0]), ls[1..]);
    }
  }

  lemma RestIsWritten(s: Pipe)
    requires Inv(s) && AtRest(s)
    ensures s.file == EncodeAll(s.base + s.fed) && s.written == s.fed
  {
    assert Behind(s) == [] && s.written + [] == s.written;
  }

  lemma Unfed(s: Pipe, l: Label)
    requires Enabled(s, l) && !l.Feed?
    ensures Next(s, l).fed == s.fed && Next(s, l).base == s.base
  {
  }

  predicate NoFeed(ls: seq<Label>) { forall i :: 0 <= i < |ls| ==> !ls[i].Feed? }

  lemma NotFeeding(s: Pipe, l: Label)
    requires Working(s, l)
    ensures !l.Feed?
  {
  }

  /** From any consistent state the threads can bring everything fed into the file and rest. */
  lemma {:induction false} Drains(s: Pipe) returns (ls: seq<Label>)
    requires Inv(s)
    ensures Possible(s, ls) && NoFeed(ls)
    ensures var t := Run(s, ls);
            Inv(t) && AtRest(t) && t.fed == s.fed && t.base == s.base && t.file == EncodeAll(s.base + s.fed)
    decreases Distance(s)
  {
    hide Inv, AtRest, Distance, Enabled, Working, Next;
    if AtRest(s) {
      RestIsWritten(s);
      return [];
    }
    var l := CanWork(s);
    StepInv(s, l);
    WorkShrinks(s, l);
    NotFeeding(s, l);
    Unfed(s, l);
    var rest := Drains(Next(s, l));
    ls := [l] + rest;
    assert ls[1..] == rest;
  }

  // -------------------------------------------------------- reachable states

  lemma {:induction false} BaseStays(s: Pipe, ls: seq<Label>)
    requires Possible(s, ls)
    ensures Run(s, ls).base == s.base
    decreases |ls|
  {
    if ls != [] { BaseStays(Next(s, ls[0]), ls[1..]); }
  }

  /**
   No reachable state strands a queued batch: a step of the pump or of a drain is enabled that
   strictly shrinks the distance to the file.
   */
  lemma NoBatchStranded(base: Batch, ls: seq<Label>) returns (l: Label)
    requires Possible(Init(base), ls) && Run(Init(base), ls).jobs != []
    ensures var s := Run(Init(base), ls);
            Enabled(s, l) && !l.Feed? && Distance(Next(s, l)) < Distance(s)
  {
    InitInv(base);
    RunInv(Init(base), ls);
    var s := Run(Init(base), ls);
    hide Inv, Distance, Enabled;
    l := CanWork(s);
    WorkShrinks(s, l);
  }

  /**
   From every reachable state there is a run of pump and drain steps alone after which the
   queue is empty, every thread rests, and the file holds what was there at startup followed
   by everything ever fed, in order.
   */
  lemma EverythingReachesFile(base: Batch, ls: seq<Label>) returns (more: seq<Label>)
    requires Possible(Init(base), ls)
    ensures var s := Run(Init(base), ls);
            && Possible(s, more) && NoFeed(more)
            && var t := Run(s, more); AtRest(t) && t.fed == s.fed && t.file == EncodeAll(base + s.fed)
  {
    InitInv(base);
    RunInv(Init(base), ls);
    BaseStays(Init(base), ls);
    more := Drains(Run(Init(base), ls));
  }
}
