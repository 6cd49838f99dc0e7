/**
 Deadline fidelity in every reachable state of the server, restarts included: no entry holds
 the deadline that means "none" in the log, so KEEPTTL and INCRBY carry deadlines exactly.
 */
module Deadlines {
  import opened Prelude
  import opened Tank
  import opened Counters
  import opened Aof
  import opened ServerSystem
  import A = ActorSystem
  import P = LogPipeline

  /** No EXPIRE record sets the sentinel. (A SET record with it means no deadline.) */
  ghost predicate CleanLog(ms: seq<Mutation>) {
    forall i :: 0 <= i < |ms| && ms[i].ExpireAt? ==> ms[i].at != NO_EXPIRY
  }

  lemma {:induction false} ReplayNoSentinel(s: Store, ms: seq<Mutation>)
    requires NoSentinel(s) && CleanLog(ms)
    ensures NoSentinel(Replay(s, ms))
    decreases |ms|
  {
    if ms != [] { ReplayNoSentinel(Apply(s, ms[0]), ms[1..]); }
  }

  lemma DigestClean(s: Store, op: Op, c: Clock)
    requires NoSentinel(s) && c.Valid() && 0 <= c.now
    ensures NoSentinel(Digest(s, op, c).store) && CleanLog(OptSeq(Digest(s, op, c).mutation))
  {
    DigestKeepsNoSentinel(s, op, c);
  }

  /** Store, snapshots to come and log are all clear of the sentinel. */
  ghost predicate Clean(s: Server) {
    0 <= s.actor.now && NoSentinel(s.actor.store) && CleanLog(Lineage(s))
  }

  lemma CleanAppend(a: seq<Mutation>, b: seq<Mutation>)
    requires CleanLog(a) && CleanLog(b)
    ensures CleanLog(a + b)
  {
  }

  lemma HandleClean(s: Server, c: Clock)
    requires Inv(s) && Clean(s) && Enabled(s, Act(A.Handle(c)))
    ensures Clean(Next(s, Act(A.Handle(c))))
  {
    HandleLog(s.actor, c);
    hide Inv, RunLog, NoSentinel, A.Ops, Digest, CleanLog;
    var d := A.OutcomeOf(s.actor, A.Handle(c));
    DigestClean(s.actor.store, s.actor.requests[s.actor.tank.id], c);
    Assoc(s.pipe.base, Applied(s), OptSeq(d.mutation));
    CleanAppend(Lineage(s), OptSeq(d.mutation));
  }

  lemma QuietClean(s: Server, l: Label)
    requires Inv(s) && Clean(s) && Enabled(s, l) && !l.Restart? && (l.Act? ==> !l.a.Handle?)
    ensures Clean(Next(s, l))
  {
    var t := Next(s, l);
    if l.Act? {
      QuietActor(s.actor, l.a);
    } else if l.Persist? {
      PersistKeeps(s.pipe, l.p);
    } else if l.FeedLog? {
      FeedFacts(s);
    }
    hide Digest, Inv, RunLog;
    assert Lineage(t) == Lineage(s);
  }

  lemma RestartClean(s: Server, now: Int64)
    requires Inv(s) && Clean(s) && Enabled(s, Restart(now))
    ensures Clean(Next(s, Restart(now)))
  {
    var records := ReadAll(s.pipe.file).records;
    RestartRecords(s);
    hide Inv, ReadAll, RunLog, NoSentinel;
    assert CleanLog(records);
    ReplayNoSentinel(map[], records);
    StartInv(Next(s, Restart(now)).(pipe := P.Init(records)), records, now);
  }

  lemma {:induction false} RunClean(s: Server, ls: seq<Label>)
    requires Inv(s) && Clean(s) && Possible(s, ls)
    ensures Clean(Run(s, ls))
    decreases |ls|
  {
    hide Inv, Clean, Enabled, Next;
    if ls != [] {
      StepInv(s, ls[0]);
      match ls[0] {
        case Restart(now) => RestartClean(s, now);
        case Act(a) => if a.Handle? { HandleClean(s, a.clock); } else { QuietClean(s, ls[0]); }
        case _ => QuietClean(s, ls[0]);
      }
      RunClean(Next(s, ls[0]), ls[1..]);
    }
  }

  lemma InitClean(now: Int64)
    requires 0 <= now
    ensures Clean(Init(now))
  {
    assert A.Ops([]) == [];
  }

  /** With a nonnegative clock, no entry the server ever holds, before or after restarts, has deadline -1. */
  lemma ServerHoldsNoSentinel(now: Int64, ls: seq<Label>)
    requires 0 <= now && Possible(Init(now), ls)
    ensures NoSentinel(Run(Init(now), ls).actor.store)
  {
    hide Inv, Run, Possible;
    InitInv(now);
    InitClean(now);
    RunClean(Init(now), ls);
  }

  /** In every reachable state KEEPTTL and INCRBY carry the existing deadline of a live key exactly. */
  lemma DeadlineCarried(now: Int64, ls: seq<Label>, op: Op, c: Clock)
    requires 0 <= now && Possible(Init(now), ls)
    requires op.IncrBy? || (op.Set? && op.expiration.KeepOld?)
    requires Alive(Run(Init(now), ls).actor.store, op.key, c.now)
    ensures var s := Run(Init(now), ls).actor.store;
            var d := Digest(s, op, c);
            op.key in d.store && d.store[op.key].expiresAt == s[op.key].expiresAt
  {
    ServerHoldsNoSentinel(now, ls);
  }

  /**
   The same through the log: the record KEEPTTL or INCRBY leaves, written out, read back and
   applied to any store, sets exactly the deadline the key had.
   */
  lemma DeadlineCarriedThroughLog(now: Int64, ls: seq<Label>, op: Op, c: Clock, rest: seq<Byte>, other: Store)
    requires 0 <= now && Possible(Init(now), ls)
    requires op.IncrBy? || (op.Set? && op.expiration.KeepOld?)
    requires Alive(Run(Init(now), ls).actor.store, op.key, c.now)
    requires Digest(Run(Init(now), ls).actor.store, op, c).mutation.Some?
    ensures var s := Run(Init(now), ls).actor.store;
            var m := Digest(s, op, c).mutation.value;
            var read := Read(Encode(m) + rest);
            && read == Ok(m, |Encode(m)|)
            && op.key in Apply(other, read.mutation)
            && Apply(other, read.mutation)[op.key].expiresAt == s[op.key].expiresAt
  {
    ServerHoldsNoSentinel(now, ls);
    var s := Run(Init(now), ls).actor.store;
    SameDeadline(s, op, c);
    ReadEncoded(Digest(s, op, c).mutation.value, rest);
  }
}
