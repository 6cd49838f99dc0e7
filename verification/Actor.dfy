/**
 Clients and the tank thread: the request/response protocol of `septic_tank_feed`
 (src/septic_tank/septic_tank_operation.c) against the tank's consume, digest, reply,
 log loop (src/septic_tank/septic_tank.c), as a step system over every interleaving.
 Channels are the bounded FIFOs that module SewerMonitor shows a sewer to be.
 */
module ActorSystem {
  import opened Prelude
  import opened Tank

  const CHANNEL_CAPACITY: nat := 100

  /** Program points of the tank thread. */
  datatype TankPc =
    | Waiting
    | Consumed(id: nat)
    | Digested(id: nat, answer: Answer)
    | Logging(mutation: Option<Mutation>)

  datatype Record = Record(id: nat, timed: Timed, answer: Answer)

  /**
   `requests` maps each call of `septic_tank_feed` to its (cloned) operation; `order`
   is the order in which the tank digested them. The three time maps count steps and
   only record when each call began, was digested and returned.
   */
  datatype Actor = Actor(
    now: Int64, store: Store,
    requests: map<nat, Op>, sending: set<nat>, queue: seq<nat>, tank: TankPc,
    responses: map<nat, Answer>, received: map<nat, Answer>,
    order: seq<Record>, start: Store, startTime: Int64,
    step: nat, invokedAt: map<nat, nat>, handledAt: map<nat, nat>, receivedAt: map<nat, nat>)

  function Init(store: Store, now: Int64): Actor {
    Actor(now, store, map[], {}, [], Waiting, map[], map[], [], store, now, 0, map[], map[], map[])
  }

  datatype Label =
    | Invoke(id: nat, op: Op) | Enqueue(id: nat) | Take | Handle(clock: Clock)
    | Respond | Finish | Receive(id: nat) | Tick(now: Int64)

  predicate Enabled(s: Actor, l: Label) {
    match l
    case Invoke(id, _) => id !in s.requests
    case Enqueue(id) => id in s.sending && |s.queue| < CHANNEL_CAPACITY
    case Take => s.tank.Waiting? && s.queue != []
    case Handle(c) => s.tank.Consumed? && s.tank.id in s.requests && s.now <= c.now && c.Valid()
    case Respond => s.tank.Digested?
    case Finish => s.tank.Logging?
    case Receive(id) => id in s.responses
    case Tick(now) => s.now <= now
  }

  function Handled(s: Actor, c: Clock, d: Outcome): Actor
    requires s.tank.Consumed? && s.tank.id in s.requests
  {
    var id, answer := s.tank.id, Answer(d.reply, d.mutation);
    s.(now := c.later, store := d.store, tank := Digested(id, answer),
       order := s.order + [Record(id, Timed(s.requests[id], c), answer)],
       handledAt := s.handledAt[id := s.step])
  }

  /** The successor state, given the outcome of the digest step if that is the step taken. */
  function Succ(s: Actor, l: Label, d: Outcome): Actor
    requires Enabled(s, l)
  {
    var s := s.(step := s.step + 1);
    match l
    case Invoke(id, op) =>
      s.(requests := s.requests[id := op], sending := s.sending + {id}, invokedAt := s.invokedAt[id := s.step])
    case Enqueue(id) => s.(sending := s.sending - {id}, queue := s.queue + [id])
    case Take => s.(tank := Consumed(s.queue[0]), queue := s.queue[1..])
    case Handle(c) => Handled(s, c, d)
    case Respond =>
      s.(responses := s.responses[s.tank.id := s.tank.answer], tank := Logging(s.tank.answer.mutation))
    case Finish => s.(tank := Waiting)
    case Receive(id) =>
      s.(responses := s.responses - {id}, received := s.received[id := s.responses[id]],
         receivedAt := s.receivedAt[id := s.step])
    case Tick(now) => s.(now := now)
  }

  function OutcomeOf(s: Actor, l: Label): Outcome
    requires Enabled(s, l)
  {
    if l.Handle? then Digest(s.store, s.requests[s.tank.id], l.clock) else Outcome(s.store, Value(None), None)
  }

  function Next(s: Actor, l: Label): Actor
    requires Enabled(s, l)
  {
    Succ(s, l, OutcomeOf(s, l))
  }

  // -------------------------------------------------------------- invariant

  function Ops(order: seq<Record>): seq<Timed> {
    seq(|order|, i requires 0 <= i < |order| => order[i].timed)
  }

  lemma OpsSnoc(order: seq<Record>, r: Record)
    ensures Ops(order + [r]) == Ops(order) + [r.timed]
  {
  }

  /** The store and every answer are those of the sequential tank run in processing order. */
  ghost predicate Sequential(s: Actor) {
    && s.store == RunStore(s.start, Ops(s.order))
    && |RunAnswers(s.start, Ops(s.order))| == |s.order|
    && (forall i :: 0 <= i < |s.order| ==> s.order[i].answer == RunAnswers(s.start, Ops(s.order))[i])
    && Monotone(Ops(s.order), s.startTime) && EndOf(Ops(s.order), s.startTime) <= s.now
  }

  ghost predicate Distinct(q: seq<nat>) {
    forall i, j :: 0 <= i < j < |q| ==> q[i] != q[j]
  }

  /** Every call is at one stage: sending, queued, with the tank, or digested once. */
  ghost predicate Staged(s: Actor) {
    && s.sending <= s.requests.Keys
    && (forall i :: 0 <= i < |s.queue| ==> s.queue[i] in s.requests && s.queue[i] !in s.sending)
    && Distinct(s.queue)
    && s.handledAt.Keys <= s.requests.Keys
    && (forall id :: id in s.handledAt ==> id !in s.sending && id !in s.queue)
    && (s.tank.Consumed? ==>
          s.tank.id in s.requests && s.tank.id !in s.sending && s.tank.id !in s.queue && s.tank.id !in s.handledAt)
    && (forall i :: 0 <= i < |s.order| ==>
          s.order[i].id in s.handledAt && s.order[i].timed.op == s.requests[s.order[i].id])
  }

  ghost predicate Recorded(order: seq<Record>, id: nat, a: Answer) {
    exists i :: 0 <= i < |order| && order[i].id == id && order[i].answer == a
  }

  /** Whatever is on its way to a client, or arrived, is the answer recorded for that call. */
  ghost predicate Answered(s: Actor) {
    && (s.tank.Digested? ==> Recorded(s.order, s.tank.id, s.tank.answer))
    && (forall id :: id in s.responses ==> Recorded(s.order, id, s.responses[id]))
    && (forall id :: id in s.received ==> Recorded(s.order, id, s.received[id]))
    && s.receivedAt.Keys == s.received.Keys
  }

  /** Began before digested, digested before returned. */
  ghost predicate Stamped(ids: set<nat>, step: nat, inv: map<nat, nat>, handled: map<nat, nat>, got: map<nat, nat>) {
    && inv.Keys == ids
    && (forall id :: id in inv ==> inv[id] <= step)
    && (forall id :: id in handled ==> id in inv && inv[id] < handled[id] <= step)
    && (forall id :: id in got ==> id in handled && handled[id] < got[id])
  }

  /** Digested in processing order. */
  ghost predicate InOrder(order: seq<Record>, handled: map<nat, nat>) {
    && (forall i :: 0 <= i < |order| ==> order[i].id in handled)
    && (forall i, j :: 0 <= i < j < |order| ==> handled[order[i].id] < handled[order[j].id])
  }

  ghost predicate Ordered(s: Actor) {
    && Stamped(s.requests.Keys, s.step, s.invokedAt, s.handledAt, s.receivedAt)
    && InOrder(s.order, s.handledAt)
  }

  ghost predicate Inv(s: Actor) {
    Sequential(s) && Staged(s) && Answered(s) && Ordered(s) && |s.queue| <= CHANNEL_CAPACITY
  }

  lemma InitInv(store: Store, now: Int64)
    ensures Inv(Init(store, now))
  {
    assert Ops([]) == [];
  }

  lemma StepSequential(s: Actor, l: Label)
    requires Sequential(s) && Enabled(s, l)
    ensures Sequential(Next(s, l))
  {
    if l.Handle? {
      var t := Next(s, l);
      var r := t.order[|s.order|];
      OpsSnoc(s.order, r);
      RunSnoc(s.start, Ops(s.order), r.timed);
      MonotoneSnoc(Ops(s.order), s.startTime, r.timed);
    }
  }

  lemma StepStaged(s: Actor, l: Label, d: Outcome)
    requires Staged(s) && Enabled(s, l)
    ensures Staged(Succ(s, l, d))
  {
  }

  lemma HandledAnswered(s: Actor, c: Clock, d: Outcome)
    requires Answered(s) && Enabled(s, Handle(c))
    ensures Answered(Succ(s, Handle(c), d))
  {
    var t := Succ(s, Handle(c), d);
    forall id, a | Recorded(s.order, id, a) ensures Recorded(t.order, id, a) {
      var i :| 0 <= i < |s.order| && s.order[i].id == id && s.order[i].answer == a;
      assert t.order[i] == s.order[i];
    }
    assert t.order[|s.order|].id == t.tank.id;
  }

  lemma QuietAnswered(s: Actor, l: Label, d: Outcome)
    requires Answered(s) && Enabled(s, l) && !l.Handle?
    ensures Answered(Succ(s, l, d))
  {
    assert Succ(s, l, d).order == s.order;
  }

  lemma StepAnswered(s: Actor, l: Label, d: Outcome)
    requires Answered(s) && Enabled(s, l)
    ensures Answered(Succ(s, l, d))
  {
    if l.Handle? { HandledAnswered(s, l.clock, d); } else { QuietAnswered(s, l, d); }
  }

  lemma ReceivedOrdered(s: Actor, id: nat, d: Outcome)
    requires Answered(s) && Ordered(s) && Enabled(s, Receive(id))
    ensures Ordered(Succ(s, Receive(id), d))
  {
    assert Recorded(s.order, id, s.responses[id]);
    assert id in s.handledAt;
  }

  lemma HandledOrdered(s: Actor, c: Clock, d: Outcome)
    requires Staged(s) && Ordered(s) && Enabled(s, Handle(c))
    ensures Ordered(Succ(s, Handle(c), d))
  {
  }

  lemma InvokedOrdered(s: Actor, id: nat, op: Op, d: Outcome)
    requires Ordered(s) && Enabled(s, Invoke(id, op))
    ensures Ordered(Succ(s, Invoke(id, op), d))
  {
  }

  lemma QuietOrdered(s: Actor, l: Label, d: Outcome)
    requires Ordered(s) && Enabled(s, l) && !l.Invoke? && !l.Handle? && !l.Receive?
    ensures Ordered(Succ(s, l, d))
  {
  }

  lemma StepOrdered(s: Actor, l: Label, d: Outcome)
    requires Staged(s) && Answered(s) && Ordered(s) && Enabled(s, l)
    ensures Ordered(Succ(s, l, d))
  {
    match l {
      case Invoke(id, op) => InvokedOrdered(s, id, op, d);
      case Handle(c) => HandledOrdered(s, c, d);
      case Receive(id) => ReceivedOrdered(s, id, d);
      case _ => QuietOrdered(s, l, d);
    }
  }

  lemma StepInv(s: Actor, l: Label)
    requires Inv(s) && Enabled(s, l)
    ensures Inv(Next(s, l))
  {
    var d := OutcomeOf(s, l);
    StepSequential(s, l);
    StepStaged(s, l, d);
    StepAnswered(s, l, d);
    StepOrdered(s, l, d);
  }

  // ------------------------------------------------------------------- runs

  predicate Possible(s: Actor, ls: seq<Label>)
    decreases |ls|
  {
    ls == [] || (Enabled(s, ls[0]) && Possible(Next(s, ls[0]), ls[1..]))
  }

  function Run(s: Actor, ls: seq<Label>): Actor
    requires Possible(s, ls)
    decreases |ls|
  {
    if ls == [] then s else Run(Next(s, ls[0]), ls[1..])
  }

  lemma {:induction false} RunInv(s: Actor, ls: seq<Label>)
    requires Inv(s) && Possible(s, ls)
    ensures Inv(Run(s, ls))
    decreases |ls|
  {
    if ls != [] {
      StepInv(s, ls[0]);
      RunInv(Next(s, ls[0]), ls[1..]);
    }
  }

  /** Call a had returned when call b began. */
  predicate Precedes(s: Actor, a: nat, b: nat) {
    a in s.receivedAt && b in s.invokedAt && s.receivedAt[a] < s.invokedAt[b]
  }

  lemma RealTime(s: Actor, i: nat, j: nat)
    requires Ordered(s) && i < |s.order| && j < |s.order|
    requires Precedes(s, s.order[i].id, s.order[j].id)
    ensures i < j
  {
    var a, b := s.order[i].id, s.order[j].id;
    assert s.handledAt[a] < s.receivedAt[a] < s.invokedAt[b] < s.handledAt[b];
  }

  lemma AnsweredSequentially(s: Actor)
    requires Sequential(s) && Staged(s) && Answered(s)
    ensures forall id :: id in s.received ==>
              exists i :: 0 <= i < |s.order| && s.order[i].id == id && id in s.requests &&
                s.order[i].timed.op == s.requests[id] &&
                s.received[id] == RunAnswers(s.start, Ops(s.order))[i]
  {
    forall id | id in s.received
      ensures exists i :: 0 <= i < |s.order| && s.order[i].id == id && id in s.requests &&
                s.order[i].timed.op == s.requests[id] &&
                s.received[id] == RunAnswers(s.start, Ops(s.order))[i]
    {
      var i :| 0 <= i < |s.order| && s.order[i].id == id && s.order[i].answer == s.received[id];
      assert id in s.handledAt;
    }
  }

  /**
   Linearizability. In every reachable state, under every interleaving: (1) each reply
   a client got is the answer its own operation has in the sequential run of the tank
   over the processing order; (2) no call is processed twice; (3) a reply received
   before another call began means earlier processing.
   */
  lemma Linearizable(store: Store, now: Int64, ls: seq<Label>)
    requires Possible(Init(store, now), ls)
    ensures var s := Run(Init(store, now), ls);
            var seqRun := RunAnswers(s.start, Ops(s.order));
            && |seqRun| == |s.order|
            && (forall id :: id in s.received ==>
                  exists i :: 0 <= i < |s.order| && s.order[i].id == id && id in s.requests &&
                    s.order[i].timed.op == s.requests[id] && s.received[id] == seqRun[i])
            && (forall i, j :: 0 <= i < j < |s.order| ==> s.order[i].id != s.order[j].id)
            && (forall i, j :: 0 <= i < |s.order| && 0 <= j < |s.order| && Precedes(s, s.order[i].id, s.order[j].id)
                  ==> i < j)
  {
    InitInv(store, now);
    RunInv(Init(store, now), ls);
    var s := Run(Init(store, now), ls);
    AnsweredSequentially(s);
    forall i, j | 0 <= i < |s.order| && 0 <= j < |s.order| && Precedes(s, s.order[i].id, s.order[j].id)
      ensures i < j
    {
      RealTime(s, i, j);
    }
  }
}
