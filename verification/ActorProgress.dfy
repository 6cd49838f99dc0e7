/**
 Every call gets its answer: where an answer is at any moment, that it is never lost or
 doubled on its way to the caller, and that serving never gets stuck.
 */
module ActorProgress {
  import opened Prelude
  import opened Tank
  import opened ActorSystem

  // ------------------------------------------------------ where an answer is

  predicate WithTank(s: Actor, id: nat) { s.tank.Digested? && s.tank.id == id }

  /** In how many places the answer to a call is: the tank, the call's channel, the caller. */
  function Places(s: Actor, id: nat): nat {
    (if WithTank(s, id) then 1 else 0) + (if id in s.responses then 1 else 0) + (if id in s.received then 1 else 0)
  }

  /** The answer to a call, wherever it is. */
  predicate Has(s: Actor, id: nat, a: Answer) {
    || (WithTank(s, id) && s.tank.answer == a)
    || (id in s.responses && s.responses[id] == a)
    || (id in s.received && s.received[id] == a)
  }

  /** A digested call has its answer in one place; any other call waits for the tank. */
  ghost predicate Delivered(s: Actor) {
    && (forall id: nat :: Places(s, id) == if id in s.handledAt then 1 else 0)
    && (forall id :: id in s.requests ==>
          id in s.sending || id in s.queue || s.tank == Consumed(id) || id in s.handledAt)
  }

  lemma StepPlaces(s: Actor, l: Label, d: Outcome, id: nat)
    requires Staged(s) && Delivered(s) && Enabled(s, l)
    ensures Places(Succ(s, l, d), id) == if id in Succ(s, l, d).handledAt then 1 else 0
  {
    assert Places(s, id) == if id in s.handledAt then 1 else 0;
  }

  lemma QueueHead(q: seq<nat>, id: nat)
    requires id in q
    ensures id == q[0] || id in q[1..]
  {
  }

  lemma StepWaits(s: Actor, l: Label, d: Outcome, id: nat)
    requires Staged(s) && Delivered(s) && Enabled(s, l) && id in Succ(s, l, d).requests
    ensures var t := Succ(s, l, d); id in t.sending || id in t.queue || t.tank == Consumed(id) || id in t.handledAt
  {
    if l.Take? && id in s.queue { QueueHead(s.queue, id); }
  }

  lemma StepDelivered(s: Actor, l: Label, d: Outcome)
    requires Staged(s) && Delivered(s) && Enabled(s, l)
    ensures Delivered(Succ(s, l, d))
  {
    var t := Succ(s, l, d);
    forall id: nat ensures Places(t, id) == if id in t.handledAt then 1 else 0 { StepPlaces(s, l, d, id); }
    forall id | id in t.requests ensures id in t.sending || id in t.queue || t.tank == Consumed(id) || id in t.handledAt {
      StepWaits(s, l, d, id);
    }
  }

  lemma InitDelivered(store: Store, now: Int64)
    ensures Delivered(Init(store, now))
  {
  }

  lemma StepBoth(s: Actor, l: Label)
    requires Inv(s) && Delivered(s) && Enabled(s, l)
    ensures Inv(Next(s, l)) && Delivered(Next(s, l))
  {
    StepInv(s, l);
    hide Enabled, Succ, Delivered, Sequential, Staged, Answered, Ordered;
    StepDelivered(s, l, OutcomeOf(s, l));
  }

  lemma {:induction false} RunDelivered(s: Actor, ls: seq<Label>)
    requires Inv(s) && Delivered(s) && Possible(s, ls)
    ensures Inv(Run(s, ls)) && Delivered(Run(s, ls))
    decreases |ls|
  {
    hide Inv, Delivered, Enabled, Next;
    if ls != [] {
      StepBoth(s, ls[0]);
      RunDelivered(Next(s, ls[0]), ls[1..]);
    }
  }

  /** A place that holds an answer to a recorded call holds the recorded one. */
  lemma HasRecorded(s: Actor, i: nat)
    requires Answered(s) && Ordered(s) && Delivered(s) && i < |s.order|
    ensures Has(s, s.order[i].id, s.order[i].answer)
  {
    var id := s.order[i].id;
    assert Places(s, id) == 1;
    var a := if WithTank(s, id) then s.tank.answer else if id in s.responses then s.responses[id] else s.received[id];
    assert Recorded(s.order, id, a);
    var j :| 0 <= j < |s.order| && s.order[j].id == id && s.order[j].answer == a;
    assert i == j;
  }

  lemma HandledRecorded(s: Actor, id: nat)
    requires Answered(s) && Delivered(s) && id in s.handledAt
    ensures exists i :: 0 <= i < |s.order| && s.order[i].id == id
  {
    assert Places(s, id) == 1;
    var a := if WithTank(s, id) then s.tank.answer else if id in s.responses then s.responses[id] else s.received[id];
    assert Recorded(s.order, id, a);
  }

  /**
   In every reachable state, the answer to each digested call is in exactly one place, with
   the tank, in the call's own channel or with the caller, and what is there is the answer
   the operation has in the sequential run. A call not yet digested has no answer anywhere.
   */
  lemma AnswerInOnePlace(store: Store, now: Int64, ls: seq<Label>)
    requires Possible(Init(store, now), ls)
    ensures var s := Run(Init(store, now), ls);
            && (forall id: nat :: Places(s, id) == if id in s.handledAt then 1 else 0)
            && (forall id :: id in s.handledAt <==> exists i :: 0 <= i < |s.order| && s.order[i].id == id)
            && |RunAnswers(s.start, Ops(s.order))| == |s.order|
            && (forall i :: 0 <= i < |s.order| ==> Has(s, s.order[i].id, RunAnswers(s.start, Ops(s.order))[i]))
  {
    InitInv(store, now);
    InitDelivered(store, now);
    RunDelivered(Init(store, now), ls);
    var s := Run(Init(store, now), ls);
    hide Run, Possible, RunAnswers, RunStore, Ops, Places, Has;
    forall i | 0 <= i < |s.order| ensures Has(s, s.order[i].id, RunAnswers(s.start, Ops(s.order))[i]) {
      HasRecorded(s, i);
    }
    forall id | id in s.handledAt ensures exists i :: 0 <= i < |s.order| && s.order[i].id == id {
      HandledRecorded(s, id);
    }
  }

  // --------------------------------------------------------------- progress

  /** A step that moves some call towards its caller. */
  predicate Serving(l: Label) { !l.Invoke? && !l.Tick? }

  function TankWork(pc: TankPc): nat {
    match pc
    case Waiting => 0
    case Consumed(_) => 4
    case Digested(_, _) => 3
    case Logging(_) => 1
  }

  /** How many serving steps the calls begun so far still need. */
  function Work(s: Actor): nat {
    6 * |s.sending| + 5 * |s.queue| + TankWork(s.tank) + |s.responses|
  }

  predicate AtRest(s: Actor) {
    s.sending == {} && s.queue == [] && s.tank.Waiting? && s.responses == map[]
  }

  lemma MapSize<K, V>(m: map<K, V>, k: K, v: V)
    ensures |m[k := v]| == if k in m then |m| else |m| + 1
    ensures k in m ==> |m - {k}| == |m| - 1
  {
    if k in m {
      assert m[k := v].Keys == m.Keys;
      assert (m - {k}).Keys == m.Keys - {k};
    } else {
      assert m[k := v].Keys == m.Keys + {k};
    }
  }

  lemma ServingShrinks(s: Actor, l: Label, d: Outcome)
    requires Enabled(s, l) && Serving(l)
    ensures Work(Succ(s, l, d)) < Work(s) && Succ(s, l, d).requests == s.requests
  {
    match l {
      case Respond => MapSize(s.responses, s.tank.id, s.tank.answer);
      case Receive(id) => MapSize(s.responses, id, s.responses[id]);
      case Enqueue(id) => assert |s.sending - {id}| == |s.sending| - 1;
      case _ =>
    }
  }

  /** Unless every call has returned, some serving step can be taken. */
  lemma CanServe(s: Actor) returns (l: Label)
    requires Staged(s) && !AtRest(s)
    ensures Enabled(s, l) && Serving(l)
  {
    match s.tank {
      case Consumed(_) => l := Handle(Clock(s.now, s.now));
      case Digested(_, _) => l := Respond;
      case Logging(_) => l := Finish;
      case Waiting =>
        if s.queue != [] {
          l := Take;
        } else if s.sending != {} {
          var id :| id in s.sending;
          l := Enqueue(id);
        } else {
          var id :| id in s.responses;
          l := Receive(id);
        }
    }
  }

  function Invocations(ls: seq<Label>): nat {
    if ls == [] then 0 else (if ls[0].Invoke? then 1 else 0) + Invocations(ls[1..])
  }

  function ServingSteps(ls: seq<Label>): nat {
    if ls == [] then 0 else (if Serving(ls[0]) then 1 else 0) + ServingSteps(ls[1..])
  }

  lemma StepWork(s: Actor, l: Label)
    requires Enabled(s, l)
    ensures (if Serving(l) then 1 else 0) + Work(Next(s, l)) <= Work(s) + (if l.Invoke? then 6 else 0)
    ensures Serving(l) ==> Next(s, l).requests == s.requests
  {
    if Serving(l) {
      hide Enabled, Succ, Work;
      ServingShrinks(s, l, OutcomeOf(s, l));
    }
  }

  /**
   Under every schedule, a run takes at most six serving steps per call, and when no serving
   step can be taken any more every call has returned.
   */
  lemma {:induction false} SixStepsPerCall(s: Actor, ls: seq<Label>)
    requires Inv(s) && Delivered(s) && Possible(s, ls)
    ensures ServingSteps(ls) + Work(Run(s, ls)) <= Work(s) + 6 * Invocations(ls)
    ensures AtRest(Run(s, ls)) || exists l :: Enabled(Run(s, ls), l) && Serving(l)
    decreases |ls|
  {
    hide Delivered, Enabled, Next, Work, AtRest, Sequential, Staged, Answered, Ordered;
    if ls == [] {
      if !AtRest(s) { var l := CanServe(s); }
    } else {
      StepWork(s, ls[0]);
      StepBoth(s, ls[0]);
      SixStepsPerCall(Next(s, ls[0]), ls[1..]);
    }
  }

  lemma RestAllReturned(s: Actor)
    requires Delivered(s) && AtRest(s)
    ensures s.requests.Keys <= s.received.Keys
  {
    forall id | id in s.requests ensures id in s.received { assert Places(s, id) == 1; }
  }

  ghost predicate AllServing(ls: seq<Label>) { forall i :: 0 <= i < |ls| ==> Serving(ls[i]) }

  /** From any state of a run, serving steps alone bring every call's answer back. */
  lemma {:induction false} Serves(s: Actor) returns (ls: seq<Label>)
    requires Inv(s) && Delivered(s)
    ensures Possible(s, ls) && AllServing(ls)
    ensures var t := Run(s, ls); AtRest(t) && t.requests == s.requests
    decreases Work(s)
  {
    hide Delivered, Enabled, Next, Work, AtRest, Serving, Sequential, Staged, Answered, Ordered;
    if AtRest(s) {
      ls := [];
    } else {
      var l := CanServe(s);
      StepWork(s, l);
      StepBoth(s, l);
      var rest := Serves(Next(s, l));
      ls := [l] + rest;
      assert ls[1..] == rest;
    }
  }

  lemma {:induction false} RunAppend(s: Actor, a: seq<Label>, b: seq<Label>)
    requires Possible(s, a) && Possible(Run(s, a), b)
    ensures Possible(s, a + b) && Run(s, a + b) == Run(Run(s, a), b)
    decreases |a|
  {
    hide Enabled, Next;
    if a == [] {
      assert a + b == b;
    } else {
      assert (a + b)[1..] == a[1..] + b;
      RunAppend(Next(s, a[0]), a[1..], b);
    }
  }

  /**
   No call waits forever: from every reachable state there is a run of serving steps alone after
   which each call begun has returned with the answer its own operation has in the sequential
   run of the tank.
   */
  lemma EveryCallReturns(store: Store, now: Int64, ls: seq<Label>) returns (more: seq<Label>)
    requires Possible(Init(store, now), ls)
    ensures Possible(Init(store, now), ls + more) && AllServing(more)
    ensures var s, t := Run(Init(store, now), ls), Run(Init(store, now), ls + more);
            var seqRun := RunAnswers(t.start, Ops(t.order));
            && |seqRun| == |t.order|
            && (forall id :: id in s.requests ==>
                  && id in t.received
                  && (exists i :: 0 <= i < |t.order| && t.order[i].id == id &&
                        t.order[i].timed.op == s.requests[id] && t.received[id] == seqRun[i]))
  {
    var s0 := Init(store, now);
    InitInv(store, now);
    InitDelivered(store, now);
    hide Inv, Delivered, RunAnswers, Ops, Enabled, Next, AtRest, Serving;
    RunDelivered(s0, ls);
    more := Serves(Run(s0, ls));
    RunAppend(s0, ls, more);
    RunDelivered(s0, ls + more);
    RestAllReturned(Run(s0, ls + more));
    Linearizable(store, now, ls + more);
  }
}
