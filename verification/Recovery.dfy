/**
 What replaying the log rebuilds. Evictions are never logged, so the live store
 and the replayed store differ physically; they never differ observably.
 */
module Recovery {
  import opened Prelude
  import opened Tank
  import opened EagerExpiry

  /**
   Each key maps to the same entry in both stores, or is missing from the live
   store and already expired in the replayed one.
   */
  ghost predicate LiveReplay(live: Store, replayed: Store, now: int) {
    && (forall k :: k in live ==> k in replayed && replayed[k] == live[k])
    && (forall k :: k in replayed && k !in live ==> Expired(replayed[k], now))
  }

  lemma LiveReplaySame(live: Store, replayed: Store, now: int)
    requires LiveReplay(live, replayed, now)
    ensures SameFrom(live, replayed, now)
  {
    assert Purge(live, now) == Purge(replayed, now);
    SameFromNow(live, replayed, now);
  }

  lemma ResolveKeepsLiveReplay(live: Store, replayed: Store, op: Op, c: Clock, t: int)
    requires t <= c.now && LiveReplay(live, replayed, t)
    ensures var r := Resolve(live, op, c);
            LiveReplay(r.store, replayed, c.now) &&
            (r.mutation.Some? && r.mutation.value.ExpireAt? ==> r.mutation.value.key in r.store)
  {
  }

  lemma ApplyKeepsLiveReplay(live: Store, replayed: Store, m: Mutation, t: int)
    requires LiveReplay(live, replayed, t)
    requires m.ExpireAt? ==> m.key in live
    ensures LiveReplay(Apply(live, m), Apply(replayed, m), t)
  {
  }

  lemma DigestKeepsLiveReplay(live: Store, replayed: Store, op: Op, c: Clock, t: int)
    requires t <= c.now && c.Valid() && LiveReplay(live, replayed, t)
    ensures var d := Digest(live, op, c);
            LiveReplay(d.store, ApplyOpt(replayed, d.mutation), c.later) &&
            (d.mutation.Some? && d.mutation.value.ExpireAt? ==> d.mutation.value.key in replayed)
  {
    ResolveKeepsLiveReplay(live, replayed, op, c, t);
    var r := Resolve(live, op, c);
    if r.mutation.Some? {
      ApplyKeepsLiveReplay(r.store, replayed, r.mutation.value, c.now);
    }
  }

  /** No EXPIRE record is ever replayed onto a missing key. */
  ghost predicate ExpiresFound(s: Store, log: seq<Mutation>) {
    forall i :: 0 <= i < |log| && log[i].ExpireAt? ==> log[i].key in Replay(s, log[..i])
  }

  lemma ExpiresFoundCons(s: Store, m: Mutation, log: seq<Mutation>)
    requires m.ExpireAt? ==> m.key in s
    requires ExpiresFound(Apply(s, m), log)
    ensures ExpiresFound(s, [m] + log)
  {
    var all := [m] + log;
    forall i | 0 <= i < |all| && all[i].ExpireAt?
      ensures all[i].key in Replay(s, all[..i])
    {
      if i > 0 {
        assert all[..i][1..] == log[..i - 1];
        assert all[i] == log[i - 1];
      }
    }
  }

  /** After every run, live and replayed stores are related, and every EXPIRE record finds its key. */
  lemma {:induction false} RunKeepsLiveReplay(live: Store, replayed: Store, ops: seq<Timed>, t: int)
    requires Monotone(ops, t) && LiveReplay(live, replayed, t)
    ensures LiveReplay(RunStore(live, ops), Replay(replayed, RunLog(live, ops)), EndOf(ops, t))
    ensures ExpiresFound(replayed, RunLog(live, ops))
    decreases |ops|
  {
    if ops != [] {
      var d := Digest(live, ops[0].op, ops[0].clock);
      var rest := RunLog(d.store, ops[1..]);
      DigestKeepsLiveReplay(live, replayed, ops[0].op, ops[0].clock, t);
      RunKeepsLiveReplay(d.store, ApplyOpt(replayed, d.mutation), ops[1..], ops[0].clock.later);
      if d.mutation.Some? {
        assert RunLog(live, ops) == [d.mutation.value] + rest;
        assert ([d.mutation.value] + rest)[1..] == rest;
        ExpiresFoundCons(replayed, d.mutation.value, rest);
      } else {
        assert RunLog(live, ops) == rest;
      }
    }
  }

  /** Replaying a run's log into an empty store gives a store no client can tell from the live one. */
  lemma ReplayRebuilds(ops: seq<Timed>, t: int)
    requires Monotone(ops, t)
    ensures SameFrom(RunStore(map[], ops), Replay(map[], RunLog(map[], ops)), EndOf(ops, t))
  {
    RunKeepsLiveReplay(map[], map[], ops, t);
    LiveReplaySame(RunStore(map[], ops), Replay(map[], RunLog(map[], ops)), EndOf(ops, t));
  }
}
