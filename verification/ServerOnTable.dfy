/** The server's recorded answers and live store, in every reachable state, as the real hash table produces them. */
module ServerOnTable {
  import opened Prelude
  import opened Tank
  import opened HashTable
  import opened TableTank
  import opened TankRuns
  import opened ServerSystem
  import A = ActorSystem

  /** What the server digested since its last start, in order. */
  function Digested(s: Server): seq<Timed> { A.Ops(s.actor.order) }

  /** The table after the startup replay of what the file held. */
  function Booted(hash: Hash, limit: nat, s: Server): Option<Memory> { ReplayMem(hash, limit, Start(), s.pipe.base) }

  lemma StartIsReplay(s: Server)
    requires Inv(s)
    ensures s.actor.start == Replay(map[], s.pipe.base)
  {
  }

  lemma SequentialFacts(s: Server)
    requires Inv(s)
    ensures s.actor.store == RunStore(s.actor.start, Digested(s))
    ensures var answers := RunAnswers(s.actor.start, Digested(s));
            |answers| == |s.actor.order| && forall i :: 0 <= i < |answers| ==> answers[i] == s.actor.order[i].answer
  {
  }

  lemma ReceivedFacts(s: Server)
    requires Inv(s)
    ensures forall id :: id in s.actor.received ==>
              exists i :: 0 <= i < |s.actor.order| && s.actor.order[i].id == id && id in s.actor.requests &&
                s.actor.order[i].timed.op == s.actor.requests[id] && s.actor.received[id] == s.actor.order[i].answer
  {
    A.AnsweredSequentially(s.actor);
  }

  /**
   In every reachable state, across crashes and restarts: run the startup replay and then
   everything digested since on the real table. Unless a SET meets a hole before its key, in
   the replay or after it, each answer is the one the server recorded for that call, the answer
   each caller has received is the table's answer to that call's own operation, and the table
   holds exactly the live store.
   */
  lemma TableServes(hash: Hash, limit: nat, now: Int64, ls: seq<Label>)
    requires Possible(Init(now), ls)
    requires var s := Run(Init(now), ls);
             var m := Booted(hash, limit, s);
             && m.Some? && !ReplayMeetsHole(hash, limit, Start(), s.pipe.base)
             && RunMem(hash, limit, m.value, Digested(s)).Some? && !RunMeetsHole(hash, limit, m.value, Digested(s))
    ensures var s := Run(Init(now), ls);
            var m := Booted(hash, limit, s).value;
            var answers := MemAnswers(hash, limit, m, Digested(s));
            && |answers| == |s.actor.order|
            && (forall i :: 0 <= i < |answers| ==> answers[i] == s.actor.order[i].answer)
            && (forall id :: id in s.actor.received ==>
                  exists i :: 0 <= i < |answers| && s.actor.order[i].id == id && id in s.actor.requests &&
                    s.actor.order[i].timed.op == s.actor.requests[id] && s.actor.received[id] == answers[i])
            && Contents(hash, RunMem(hash, limit, m, Digested(s)).value) == s.actor.store
  {
    var s := Run(Init(now), ls);
    Reachable(now, ls);
    StartIsReplay(s);
    SequentialFacts(s);
    ReceivedFacts(s);
    StartSound(hash);
    hide Inv, Run, Possible, OneSlot, Owned, Contents, ReplayMem, RunMem, MemAnswers, ReplayMeetsHole, RunMeetsHole, RunStore, RunAnswers;
    ReplayOnTable(hash, limit, Start(), s.pipe.base);
    RunsAsAbstract(hash, limit, Booted(hash, limit, s).value, Digested(s));
  }
}
