/** No client of the running server waits forever: tank and log pipeline together always get to reply. */
module ServerProgress {
  import opened Prelude
  import opened Tank
  import opened ServerSystem
  import opened ServerHistory
  import A = ActorSystem
  import Q = ActorProgress
  import P = LogPipeline
  import LogProgress

  lemma StepDelivered(s: Server, l: Label)
    requires A.Inv(s.actor) && Q.Delivered(s.actor) && Enabled(s, l)
    ensures A.Inv(Next(s, l).actor) && Q.Delivered(Next(s, l).actor)
  {
    hide A.Inv, Q.Delivered, A.Next, A.Enabled, P.Enabled, P.Next;
    match l {
      case Act(a) => Q.StepBoth(s.actor, a);
      case FeedLog => Q.StepBoth(s.actor, A.Finish);
      case Restart(now) =>
        var store := Next(s, l).actor.store;
        A.InitInv(store, now);
        Q.InitDelivered(store, now);
      case _ =>
    }
  }

  lemma {:induction false} RunDelivered(s: Server, ls: seq<Label>)
    requires A.Inv(s.actor) && Q.Delivered(s.actor) && Possible(s, ls)
    ensures A.Inv(Run(s, ls).actor) && Q.Delivered(Run(s, ls).actor)
    decreases |ls|
  {
    hide A.Inv, Q.Delivered, Enabled, Next;
    if ls != [] {
      StepDelivered(s, ls[0]);
      RunDelivered(Next(s, ls[0]), ls[1..]);
    }
  }

  /** The log's threads empty the channel into the file; the tank stands still meanwhile. */
  lemma MakeRoom(s: Server) returns (ls: seq<Label>)
    requires Inv(s) && s.up
    ensures Possible(s, ls)
    ensures var t := Run(s, ls); t.up && t.history == s.history && t.actor == s.actor && |t.pipe.channel| < P.CHANNEL_CAPACITY
  {
    hide Possible, Run, P.Possible, P.Run, P.Inv;
    var drains := LogProgress.Drains(s.pipe);
    PersistRun(s, drains);
    ls := Persisted(drains);
  }

  /** One serving step of the tank or a client, after making room in the log if it is to be fed. */
  lemma ServeOne(s: Server, a: A.Label) returns (ls: seq<Label>)
    requires Inv(s) && s.up && A.Enabled(s.actor, a) && Q.Serving(a)
    ensures Possible(s, ls)
    ensures var t := Run(s, ls); t.up && t.history == s.history && t.actor == A.Next(s.actor, a)
  {
    if a.Finish? {
      ls := MakeRoom(s);
      var t := Run(s, ls);
      if t.actor.tank.mutation.Some? { FeedEnabled(t.pipe, t.actor.tank.mutation.value); }
      hide P.Enabled, P.Next, A.Next, Inv, Possible, Run;
      assert Enabled(t, FeedLog);
      RunOne(t, FeedLog);
      RunAppend(s, ls, [FeedLog]);
      ls := ls + [FeedLog];
    } else {
      hide A.Next, Inv;
      RunOne(s, Act(a));
      ls := [Act(a)];
    }
  }

  lemma {:induction false} ServesAll(s: Server) returns (ls: seq<Label>)
    requires Inv(s) && Q.Delivered(s.actor) && s.up
    ensures Possible(s, ls)
    ensures var t := Run(s, ls);
            t.up && t.history == s.history && Inv(t) && Q.Delivered(t.actor) && Q.AtRest(t.actor) && t.actor.requests == s.actor.requests
    decreases Q.Work(s.actor)
  {
    if Q.AtRest(s.actor) {
      ls := [];
    } else {
      var a := Q.CanServe(s.actor);
      Q.StepWork(s.actor, a);
      var first := ServeOne(s, a);
      var t := Run(s, first);
      RunInv(s, first);
      Q.StepBoth(s.actor, a);
      hide Inv, Q.Delivered, Q.AtRest, Q.Work, Possible, Run, A.Next, A.Enabled;
      var rest := ServesAll(t);
      RunAppend(s, first, rest);
      ls := first + rest;
    }
  }

  lemma RestAnswered(s: Server)
    requires Inv(s) && Q.Delivered(s.actor) && Q.AtRest(s.actor)
    ensures var order, seqRun := s.actor.order, RunAnswers(s.actor.start, A.Ops(s.actor.order));
            && |seqRun| == |order|
            && (forall id :: id in s.actor.requests ==>
                  && id in s.actor.received
                  && (exists i :: 0 <= i < |order| && order[i].id == id &&
                        order[i].timed.op == s.actor.requests[id] && s.actor.received[id] == seqRun[i]))
  {
    Q.RestAllReturned(s.actor);
    A.AnsweredSequentially(s.actor);
  }

  /**
   From every reachable state of a running server, whatever crashes came before and however full
   the log's channel is, there is a run without a crash after which every call begun since the last
   start has returned with its own operation's answer in the sequential run.
   */
  lemma EveryClientAnswered(now: Int64, ls: seq<Label>) returns (more: seq<Label>)
    requires Possible(Init(now), ls) && Run(Init(now), ls).up
    ensures Possible(Init(now), ls + more)
    ensures var s, t := Run(Init(now), ls), Run(Init(now), ls + more);
            var seqRun := RunAnswers(t.actor.start, A.Ops(t.actor.order));
            && t.up && t.history == s.history && |seqRun| == |t.actor.order|
            && (forall id :: id in s.actor.requests ==>
                  && id in t.actor.received
                  && (exists i :: 0 <= i < |t.actor.order| && t.actor.order[i].id == id &&
                        t.actor.order[i].timed.op == s.actor.requests[id] && t.actor.received[id] == seqRun[i]))
  {
    var s0 := Init(now);
    InitInv(now);
    Q.InitDelivered(map[], now);
    assert A.Inv(s0.actor) && Q.Delivered(s0.actor);
    hide Inv, A.Inv, Q.Delivered, Q.AtRest, Possible, Run, RunAnswers, A.Ops;
    RunDelivered(s0, ls);
    RunInv(s0, ls);
    more := ServesAll(Run(s0, ls));
    RunAppend(s0, ls, more);
    RestAnswered(Run(s0, ls + more));
  }
}
