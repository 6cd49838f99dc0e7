/**
 The file across crashes, among everything the server ever applied: which mutations survive,
 exactly when they are an initial segment, and a run after which they are not.
 */
module ServerHistory {
  import opened Prelude
  import opened Tank
  import opened Aof
  import opened ServerSystem
  import A = ActorSystem
  import P = LogPipeline
  import LogProgress

  /** Everything applied in these eras, lost or not. */
  function Everything(h: seq<Era>): seq<Mutation> {
    if h == [] then [] else h[0].applied + Everything(h[1..])
  }

  function Range(from: nat, n: nat): seq<nat> { seq(n, i requires 0 <= i => from + i) }

  lemma RangeAt(from: nat, n: nat)
    ensures |Range(from, n)| == n && forall i :: 0 <= i < n ==> Range(from, n)[i] == from + i
  {
  }

  /** Where the survivors stand in everything ever applied. */
  function Positions(h: seq<Era>, from: nat): seq<nat>
    requires ErasWell(h)
    decreases |h|
  {
    if h == [] then [] else Range(from, h[0].kept) + Positions(h[1..], from + |h[0].applied|)
  }

  lemma {:induction false} PositionsOfSurvivors(h: seq<Era>, before: seq<Mutation>)
    requires ErasWell(h)
    ensures |Positions(h, |before|)| == |Survivors(h)|
    ensures forall i :: 0 <= i < |Survivors(h)| ==>
              |before| <= Positions(h, |before|)[i] < |before + Everything(h)| &&
              (before + Everything(h))[Positions(h, |before|)[i]] == Survivors(h)[i]
    decreases |h|
  {
    hide Range;
    if h != [] {
      RangeAt(|before|, h[0].kept);
      var next, k := before + h[0].applied, h[0].kept;
      PositionsOfSurvivors(h[1..], next);
      Assoc(before, h[0].applied, Everything(h[1..]));
      var all, ps, ss := before + Everything(h), Positions(h, |before|), Survivors(h);
      assert all == next + Everything(h[1..]);
      forall i | 0 <= i < |ss| ensures |before| <= ps[i] < |all| && all[ps[i]] == ss[i] {
        if i < k {
          assert ps[i] == |before| + i && ss[i] == h[0].applied[i];
        } else {
          assert ps[i] == Positions(h[1..], |next|)[i - k] && ss[i] == Survivors(h[1..])[i - k];
        }
      }
    }
  }

  /** No era that lost something comes before an era with survivors. */
  ghost predicate NoGap(h: seq<Era>) {
    forall i, j :: 0 <= i < j < |h| && h[i].kept < |h[i].applied| ==> h[j].kept == 0
  }

  lemma {:induction false} NoneKept(h: seq<Era>, from: nat)
    requires ErasWell(h)
    ensures Positions(h, from) == [] <==> (forall j :: 0 <= j < |h| ==> h[j].kept == 0)
    decreases |h|
  {
    if h != [] {
      NoneKept(h[1..], from + |h[0].applied|);
      assert forall j :: 0 < j < |h| ==> h[j] == h[1..][j - 1];
    }
  }

  lemma {:induction false} PositionsFrom(h: seq<Era>, from: nat)
    requires ErasWell(h)
    ensures forall i :: 0 <= i < |Positions(h, from)| ==> from <= Positions(h, from)[i]
    decreases |h|
  {
    if h != [] { PositionsFrom(h[1..], from + |h[0].applied|); }
  }

  lemma RangeSplit(from: nat, k: nat, tail: seq<nat>)
    ensures Range(from, k) + tail == Range(from, k + |tail|) <==> tail == Range(from + k, |tail|)
  {
    var all := Range(from, k) + tail;
    if all == Range(from, k + |tail|) {
      assert forall i :: 0 <= i < |tail| ==> tail[i] == all[k + i];
    }
  }

  lemma NoGapCons(h: seq<Era>)
    requires h != []
    ensures NoGap(h) <==>
            NoGap(h[1..]) && (h[0].kept < |h[0].applied| ==> forall j :: 0 <= j < |h[1..]| ==> h[1..][j].kept == 0)
    ensures (forall j :: 0 <= j < |h[1..]| ==> h[1..][j].kept == 0) ==> NoGap(h[1..])
  {
    assert forall j :: 0 < j < |h| ==> h[j] == h[1..][j - 1];
  }

  lemma StartsLater(tail: seq<nat>, from: nat, next: nat)
    requires tail != [] && from < next <= tail[0]
    ensures tail != Range(from, |tail|)
  {
    assert Range(from, |tail|)[0] == from;
  }

  /**
   The survivors are an initial segment of everything ever applied, exactly when no era
   that lost something comes before an era with survivors. A crash that loses mutations
   followed by an era that logs new ones leaves a gap.
   */
  lemma {:induction false} InitialSegmentExactlyWhen(h: seq<Era>, from: nat)
    requires ErasWell(h)
    ensures Positions(h, from) == Range(from, |Positions(h, from)|) <==> NoGap(h)
    decreases |h|
  {
    if h != [] {
      hide NoGap, Range;
      var next := from + |h[0].applied|;
      var tail := Positions(h[1..], next);
      RangeSplit(from, h[0].kept, tail);
      NoGapCons(h);
      if h[0].kept < |h[0].applied| {
        NoneKept(h[1..], next);
        PositionsFrom(h[1..], next);
        if tail == [] { RangeAt(from + h[0].kept, 0); } else { StartsLater(tail, from + h[0].kept, next); }
      } else {
        InitialSegmentExactlyWhen(h[1..], next);
      }
    }
  }

  /** The eras of a reachable state, the current one with the n records of it the file holds. */
  function Eras(s: Server, n: nat): seq<Era> { s.history + [Era(Applied(s), n)] }

  lemma AtInitialPositions(ss: seq<Mutation>, all: seq<Mutation>, ps: seq<nat>)
    requires |ps| == |ss| && ps == Range(0, |ps|)
    requires forall i :: 0 <= i < |ss| ==> ps[i] < |all| && all[ps[i]] == ss[i]
    ensures ss <= all
  {
    assert forall i :: 0 <= i < |ss| ==> ps[i] == i;
    assert ss != [] ==> ps[|ss| - 1] < |all|;
  }

  lemma InitialSegment(h: seq<Era>)
    requires ErasWell(h) && NoGap(h)
    ensures Survivors(h) <= Everything(h)
  {
    hide Positions, NoGap, Range, Everything, Survivors, ErasWell;
    PositionsOfSurvivors(h, []);
    InitialSegmentExactlyWhen(h, 0);
    assert [] + Everything(h) == Everything(h);
    AtInitialPositions(Survivors(h), Everything(h), Positions(h, 0));
  }

  /**
   In every reachable state, across any number of crashes and restarts: the complete records
   of the file are the mutations at certain increasing positions of everything the server ever
   applied, a prefix of each era; those positions are the initial ones if and only if no era
   that lost a mutation comes before an era with a record in the file.
   */
  lemma FileAmongEverything(now: Int64, ls: seq<Label>) returns (n: nat)
    requires Possible(Init(now), ls)
    ensures var s := Run(Init(now), ls);
            var h, records := Eras(s, n), ReadAll(s.pipe.file).records;
            && n <= |Applied(s)| && ErasWell(h) && records == Survivors(h)
            && |Positions(h, 0)| == |records|
            && (forall i :: 0 <= i < |records| ==> Positions(h, 0)[i] < |Everything(h)| && Everything(h)[Positions(h, 0)[i]] == records[i])
            && (Positions(h, 0) == Range(0, |records|) <==> NoGap(h))
            && (NoGap(h) ==> records <= Everything(h))
  {
    var s := Run(Init(now), ls);
    var survivors;
    survivors, n := FileIsPrefixOfEachEra(now, ls);
    hide Positions, NoGap, Everything, Survivors, ReadAll;
    var h := Eras(s, n);
    SurvivorsSnoc(s.history, Era(Applied(s), n));
    PositionsOfSurvivors(h, []);
    assert [] + Everything(h) == Everything(h);
    InitialSegmentExactlyWhen(h, 0);
    if NoGap(h) { InitialSegment(h); }
  }

  // ------------------------------------------------------------- a lossy run

  lemma {:induction false} RunAppend(s: Server, a: seq<Label>, b: seq<Label>)
    requires Possible(s, a) && Possible(Run(s, a), b)
    ensures Possible(s, a + b) && Run(s, a + b) == Run(Run(s, a), b)
    decreases |a|
  {
    hide Enabled, Next;
    if a == [] {
      assert a + b == b;
    } else {
      assert (a + b)[1..] == a[1..] + b;
      RunAppend(Next(s, a[0]), a[1..], b);
    }
  }

  lemma RunOne(s: Server, l: Label)
    requires Enabled(s, l)
    ensures Possible(s, [l]) && Run(s, [l]) == Next(s, l)
  {
    hide Enabled, Next;
    assert [l][1..] == [];
    assert Possible(Next(s, l), []) && Run(Next(s, l), []) == Next(s, l);
  }

  function Persisted(ls: seq<P.Label>): seq<Label> { seq(|ls|, i requires 0 <= i < |ls| => Persist(ls[i])) }

  /** A run of the pipeline without feeding is a run of the server. */
  lemma {:induction false} PersistRun(s: Server, ls: seq<P.Label>)
    requires s.up && P.Possible(s.pipe, ls) && LogProgress.NoFeed(ls)
    ensures Possible(s, Persisted(ls)) && Run(s, Persisted(ls)) == s.(pipe := P.Run(s.pipe, ls))
    decreases |ls|
  {
    hide P.Enabled, P.Next;
    if ls != [] {
      assert Persisted(ls)[1..] == Persisted(ls[1..]);
      PersistRun(Next(s, Persist(ls[0])), ls[1..]);
    }
  }

  /** Up, nobody calling, the tank waiting, room in the log channel. */
  predicate Idle(s: Server) {
    s.up && s.actor.tank.Waiting? && s.actor.queue == [] && |s.pipe.channel| < P.CHANNEL_CAPACITY
  }

  function PlainSet(k: DataString, v: DataString): Op { Set(k, v, false, false, false, NoExpire) }

  lemma SetMutates(s: Store, k: DataString, v: DataString, c: Clock)
    ensures Digest(s, PlainSet(k, v), c).mutation == Some(SetTo(k, v, NO_EXPIRY))
  {
  }

  lemma Three(s: Server, a: Label, b: Label, c: Label)
    requires Enabled(s, a) && Enabled(Next(s, a), b) && Enabled(Next(Next(s, a), b), c)
    ensures Possible(s, [a, b, c]) && Run(s, [a, b, c]) == Next(Next(Next(s, a), b), c)
  {
    hide Enabled, Next;
    RunOne(Next(Next(s, a), b), c);
    RunOne(Next(s, a), b);
    RunOne(s, a);
    RunAppend(Next(s, a), [b], [c]);
    RunAppend(s, [a], [b] + [c]);
    assert [a, b, c] == [a] + ([b] + [c]);
  }

  function Arriving(id: nat, op: Op): seq<Label> { [Act(A.Invoke(id, op)), Act(A.Enqueue(id)), Act(A.Take)] }

  /** A call reaches the waiting tank; nothing else moves. */
  lemma Arrives(s: Server, id: nat, op: Op)
    requires Idle(s) && id !in s.actor.requests
    ensures Possible(s, Arriving(id, op))
    ensures var t := Run(s, Arriving(id, op));
            && t.up && t.pipe == s.pipe && t.history == s.history && t.actor.tank == A.Consumed(id)
            && id in t.actor.requests && t.actor.requests[id] == op && t.actor.now == s.actor.now
            && t.actor.start == s.actor.start && t.actor.order == s.actor.order
  {
    hide Possible, Run, P.Enabled, P.Next, Digest, RunLog;
    var s1 := Next(s, Act(A.Invoke(id, op)));
    var s2 := Next(s1, Act(A.Enqueue(id)));
    assert s2.actor.queue == [id];
    Three(s, Act(A.Invoke(id, op)), Act(A.Enqueue(id)), Act(A.Take));
  }

  /** The tank digests the SET it took. */
  lemma Handles(s: Server, id: nat, k: DataString, v: DataString, c: Clock)
    requires s.up && A.Sequential(s.actor) && s.actor.tank == A.Consumed(id)
    requires id in s.actor.requests && s.actor.requests[id] == PlainSet(k, v) && s.actor.now <= c.now && c.Valid()
    ensures Enabled(s, Act(A.Handle(c)))
    ensures var t, u := Next(s, Act(A.Handle(c))), SetTo(k, v, NO_EXPIRY);
            && t.up && t.history == s.history && t.pipe == s.pipe && Applied(t) == Applied(s) + [u]
            && t.actor.tank.Digested? && t.actor.tank.answer.mutation == Some(u)
  {
    SetMutates(s.actor.store, k, v, c);
    HandleLog(s.actor, c);
    hide Digest, RunLog, A.Sequential, A.Ops;
  }

  /** It replies and hands the mutation to the log. */
  lemma HandsOver(s: Server, u: Mutation)
    requires s.up && s.actor.tank.Digested? && s.actor.tank.answer.mutation == Some(u) && |s.pipe.channel| < P.CHANNEL_CAPACITY
    ensures Enabled(s, Act(A.Respond)) && Enabled(Next(s, Act(A.Respond)), FeedLog)
    ensures var t := Next(Next(s, Act(A.Respond)), FeedLog);
            t.up && t.history == s.history && t.pipe == P.Next(s.pipe, P.Feed(u)) && Applied(t) == Applied(s)
  {
  }

  function Answering(c: Clock): seq<Label> { [Act(A.Handle(c)), Act(A.Respond), FeedLog] }

  lemma FeedEnabled(p: P.Pipe, u: Mutation)
    ensures P.Enabled(p, P.Feed(u)) <==> |p.channel| < P.CHANNEL_CAPACITY
  {
  }

  lemma Answers(s: Server, id: nat, k: DataString, v: DataString, c: Clock)
    requires s.up && A.Sequential(s.actor) && s.actor.tank == A.Consumed(id) && |s.pipe.channel| < P.CHANNEL_CAPACITY
    requires id in s.actor.requests && s.actor.requests[id] == PlainSet(k, v) && s.actor.now <= c.now && c.Valid()
    ensures Possible(s, Answering(c))
    ensures var t, u := Run(s, Answering(c)), SetTo(k, v, NO_EXPIRY);
            && t.up && t.history == s.history && t.pipe == P.Next(s.pipe, P.Feed(u)) && Applied(t) == Applied(s) + [u]
  {
    hide Enabled, Next, Possible, Run, P.Next, P.Enabled, A.Sequential, Applied;
    Handles(s, id, k, v, c);
    var t := Next(s, Act(A.Handle(c)));
    HandsOver(t, SetTo(k, v, NO_EXPIRY));
    FeedEnabled(s.pipe, SetTo(k, v, NO_EXPIRY));
    Three(s, Act(A.Handle(c)), Act(A.Respond), FeedLog);
  }

  function Serving(s: Server, id: nat, k: DataString, v: DataString): seq<Label> {
    Arriving(id, PlainSet(k, v)) + Answering(Clock(s.actor.now, s.actor.now))
  }

  /** One SET served, from the call to the hand-over to the log. */
  lemma Serve(s: Server, id: nat, k: DataString, v: DataString)
    requires Inv(s) && Idle(s) && id !in s.actor.requests
    ensures Possible(s, Serving(s, id, k, v))
    ensures var t, u := Run(s, Serving(s, id, k, v)), SetTo(k, v, NO_EXPIRY);
            && t.up && t.history == s.history && t.pipe == P.Next(s.pipe, P.Feed(u)) && Applied(t) == Applied(s) + [u]
  {
    hide Possible, Run, A.Sequential, RunLog, A.Ops;
    var ls, rest := Arriving(id, PlainSet(k, v)), Answering(Clock(s.actor.now, s.actor.now));
    Arrives(s, id, PlainSet(k, v));
    RunInv(s, ls);
    Answers(Run(s, ls), id, k, v, Clock(s.actor.now, s.actor.now));
    RunAppend(s, ls, rest);
  }

  lemma InvOfPipe(s: Server)
    requires Inv(s)
    ensures P.Inv(s.pipe)
  {
  }

  /** A SET served and then written out: the file ends with it. */
  lemma ServeAndWrite(s: Server, id: nat, k: DataString, v: DataString) returns (ls: seq<Label>)
    requires Inv(s) && Idle(s) && id !in s.actor.requests
    ensures Possible(s, ls)
    ensures var t, u := Run(s, ls), SetTo(k, v, NO_EXPIRY);
            t.history == s.history && Applied(t) == Applied(s) + [u] && t.pipe.file == EncodeAll(s.pipe.base + (s.pipe.fed + [u]))
  {
    hide Possible, Run, RunLog, A.Ops, EncodeAll, Inv;
    var first := Serving(s, id, k, v);
    Serve(s, id, k, v);
    var t := Run(s, first);
    RunInv(s, first);
    InvOfPipe(t);
    var more := LogProgress.Drains(t.pipe);
    PersistRun(t, more);
    RunAppend(s, first, Persisted(more));
    ls := first + Persisted(more);
  }

  // ------------------------------------------------- a crash loses, then gains

  lemma InitIdle(now: Int64)
    ensures Inv(Init(now)) && Idle(Init(now)) && Applied(Init(now)) == []
  {
    InitInv(now);
    assert A.Ops([]) == [];
  }

  lemma RestartedEmpty(s: Server, now: Int64)
    requires s.pipe.file == [] && s.pipe.base == []
    ensures var t := Restarted(s, now, []);
            && Idle(t) && t.actor.requests == map[] && t.history == s.history + [Era(Applied(s), 0)]
            && Applied(t) == [] && t.pipe.file == [] && t.pipe.base == [] && t.pipe.fed == []
  {
    assert A.Ops([]) == [];
    ReadNothing();
  }

  /** The server crashes having written nothing and starts again. */
  lemma CrashEmpty(s: Server, now: Int64)
    requires Inv(s) && s.up && s.pipe.file == [] && s.pipe.base == [] && s.actor.now <= now
    ensures Possible(s, [Crash, Restart(now)])
    ensures var t := Run(s, [Crash, Restart(now)]);
            && Inv(t) && Idle(t) && t.actor.requests == map[] && t.history == s.history + [Era(Applied(s), 0)]
            && Applied(t) == [] && t.pipe.file == [] && t.pipe.base == [] && t.pipe.fed == []
  {
    ReadNothing();
    hide ReadAll, Inv;
    var s1 := Next(s, Crash);
    assert Enabled(s1, Restart(now)) && Next(s1, Restart(now)) == Restarted(s1, now, []);
    assert Applied(s1) == Applied(s);
    RestartedEmpty(s1, now);
    hide Enabled, Next, Run, Possible, Restarted, RunLog;
    RunOne(s, Crash);
    RunOne(s1, Restart(now));
    RunAppend(s, [Crash], [Restart(now)]);
    assert [Crash, Restart(now)] == [Crash] + [Restart(now)];
    RunInv(s, [Crash, Restart(now)]);
  }

  lemma OneRecord(u: Mutation)
    ensures ReadAll(EncodeAll([] + ([] + [u]))).records == [u]
  {
    assert [] + ([] + [u]) == [u];
    RoundTrip([u]);
  }

  lemma GapAfterLoss(lost: Mutation, kept: Mutation)
    requires lost != kept
    ensures var h := [Era([lost], 0)] + [Era([kept], 1)];
            Everything(h) == [lost, kept] && !NoGap(h) && !([kept] <= [lost, kept])
  {
    assert [lost, kept][0] == lost && [kept][0] == kept;
    var h := [Era([lost], 0)] + [Era([kept], 1)];
    assert h[1..] == [Era([kept], 1)] && h[1..][1..] == [];
    assert Everything(h[1..]) == [kept] + [];
    assert h[0].kept < |h[0].applied| && h[1].kept != 0;
  }

  /**
   SET a, a crash before anything is written, a restart, SET b, and the log written out: the
   file holds b alone, everything applied was a and then b. So the records of the file are not
   in general a prefix of everything ever applied.
   */
  lemma LossyRun(now: Int64, a: DataString, x: DataString, b: DataString, y: DataString) returns (ls: seq<Label>)
    requires a != b
    ensures Possible(Init(now), ls)
    ensures var s := Run(Init(now), ls);
            var lost, kept := SetTo(a, x, NO_EXPIRY), SetTo(b, y, NO_EXPIRY);
            && ReadAll(s.pipe.file).records == [kept] && s.history == [Era([lost], 0)] && Applied(s) == [kept]
            && Everything(Eras(s, 1)) == [lost, kept] && !([kept] <= [lost, kept]) && !NoGap(Eras(s, 1))
  {
    hide Possible, Run, Inv, RunLog, A.Ops, EncodeAll, ReadAll, Enabled, Next;
    var s0 := Init(now);
    InitIdle(now);
    var first := Serving(s0, 0, a, x);
    Serve(s0, 0, a, x);
    RunInv(s0, first);
    var s1 := Run(s0, first);
    ReadNothing();
    CrashEmpty(s1, s1.actor.now);
    var down := [Crash, Restart(s1.actor.now)];
    RunAppend(s0, first, down);
    var s2 := Run(s1, down);
    var rest := ServeAndWrite(s2, 0, b, y);
    RunAppend(s0, first + down, rest);
    ls := first + down + rest;
    var s := Run(s0, ls);
    assert s1.pipe.file == [] && Applied(s1) == [SetTo(a, x, NO_EXPIRY)];
    assert s2.history == [Era([SetTo(a, x, NO_EXPIRY)], 0)];
    assert Applied(s) == [SetTo(b, y, NO_EXPIRY)];
    OneRecord(SetTo(b, y, NO_EXPIRY));
    GapAfterLoss(SetTo(a, x, NO_EXPIRY), SetTo(b, y, NO_EXPIRY));
    assert Eras(s, 1) == [Era([SetTo(a, x, NO_EXPIRY)], 0)] + [Era([SetTo(b, y, NO_EXPIRY)], 1)];
  }
}
