/**
 The whole server across crashes: clients and tank (ActorSystem), log pipeline and
 file (LogPipeline), a crash that loses everything but the file, and the startup
 replay of src/main.c and src/potty/potty_trainer.c, which refuses a torn file.
 */
module ServerSystem {
  import opened Prelude
  import opened Tank
  import opened EagerExpiry
  import opened Recovery
  import opened Aof
  import A = ActorSystem
  import P = LogPipeline

  /** A finished period between a start and a crash: what it applied, how much of that survived. */
  datatype Era = Era(applied: seq<Mutation>, kept: nat)

  /** The live store right after a mutation was applied, and when. */
  datatype Snap = Snap(store: Store, time: Int64)

  datatype Server = Server(up: bool, actor: A.Actor, pipe: P.Pipe, history: seq<Era>, snaps: seq<Snap>)

  function Init(now: Int64): Server {
    Server(true, A.Init(map[], now), P.Init([]), [], [Snap(map[], now)])
  }

  datatype Label =
    | Act(a: A.Label)
    | Persist(p: P.Label)
    | FeedLog
    | Crash
    | Restart(now: Int64)

  /** Mutations applied since the last start, in apply order. */
  function Applied(s: Server): seq<Mutation> { RunLog(s.actor.start, A.Ops(s.actor.order)) }

  /** What the file held at the last start, then everything applied since. */
  function Lineage(s: Server): seq<Mutation> { s.pipe.base + Applied(s) }

  predicate Enabled(s: Server, l: Label) {
    match l
    case Act(a) => s.up && !a.Finish? && A.Enabled(s.actor, a)
    case Persist(p) => s.up && !p.Feed? && P.Enabled(s.pipe, p)
    case FeedLog =>
      s.up && A.Enabled(s.actor, A.Finish) &&
      (s.actor.tank.mutation.Some? ==> P.Enabled(s.pipe, P.Feed(s.actor.tank.mutation.value)))
    case Crash => s.up
    case Restart(now) => !s.up && s.actor.now <= now && ReadAll(s.pipe.file).last == Eof
  }

  function Fed(p: P.Pipe, m: Option<Mutation>): P.Pipe
    requires m.Some? ==> P.Enabled(p, P.Feed(m.value))
  {
    if m.Some? then P.Next(p, P.Feed(m.value)) else p
  }

  function Snapped(s: Server, a: A.Label): seq<Snap>
    requires A.Enabled(s.actor, a)
  {
    var t := A.Next(s.actor, a);
    if a.Handle? && A.OutcomeOf(s.actor, a).mutation.Some? then s.snaps + [Snap(t.store, t.now)] else s.snaps
  }

  function Restarted(s: Server, now: Int64, records: seq<Mutation>): Server {
    Server(
      true, A.Init(Replay(map[], records), now), P.Init(records).(file := s.pipe.file),
      s.history + [Era(Applied(s), if |records| >= |s.pipe.base| then |records| - |s.pipe.base| else 0)],
      if |records| < |s.snaps| then s.snaps[..|records| + 1] else s.snaps)
  }

  function Next(s: Server, l: Label): Server
    requires Enabled(s, l)
  {
    match l
    case Act(a) => s.(actor := A.Next(s.actor, a), snaps := Snapped(s, a))
    case Persist(p) => s.(pipe := P.Next(s.pipe, p))
    case FeedLog => s.(actor := A.Next(s.actor, A.Finish), pipe := Fed(s.pipe, s.actor.tank.mutation))
    case Crash => s.(up := false)
    case Restart(now) => Restarted(s, now, ReadAll(s.pipe.file).records)
  }

  // -------------------------------------------------------------- invariant

  /** What the tank has applied and not yet handed to the log. */
  function Held(pc: A.TankPc): seq<Mutation> {
    match pc
    case Digested(_, a) => OptSeq(a.mutation)
    case Logging(m) => OptSeq(m)
    case _ => []
  }

  ghost predicate Feeds(s: Server) {
    && s.pipe.fed + Held(s.actor.tank) == Applied(s)
    && s.actor.start == Replay(map[], s.pipe.base)
  }

  ghost predicate Replayable(s: Server) {
    LiveReplay(s.actor.store, Replay(map[], Lineage(s)), s.actor.now)
  }

  ghost predicate SnapsAgree(snaps: seq<Snap>, lineage: seq<Mutation>) {
    && |snaps| == |lineage| + 1
    && (forall i :: 0 <= i < |snaps| ==> SameFrom(snaps[i].store, Replay(map[], lineage[..i]), snaps[i].time))
  }

  predicate ErasWell(h: seq<Era>) {
    forall i :: 0 <= i < |h| ==> h[i].kept <= |h[i].applied|
  }

  /** What survives of finished eras: a prefix of each. */
  function Survivors(h: seq<Era>): seq<Mutation>
    requires ErasWell(h)
  {
    if h == [] then [] else h[0].applied[..h[0].kept] + Survivors(h[1..])
  }

  ghost predicate Inv(s: Server) {
    && A.Inv(s.actor) && P.Inv(s.pipe)
    && Feeds(s) && Replayable(s) && SnapsAgree(s.snaps, Lineage(s))
    && ErasWell(s.history) && s.pipe.base == Survivors(s.history)
  }

  lemma StartInv(t: Server, records: seq<Mutation>, now: Int64)
    requires t.actor == A.Init(Replay(map[], records), now) && t.pipe == P.Init(records)
    ensures A.Inv(t.actor) && P.Inv(t.pipe) && Feeds(t) && Replayable(t) && Lineage(t) == records
  {
    A.InitInv(Replay(map[], records), now);
    P.InitInv(records);
    assert A.Ops([]) == [];
    assert Applied(t) == [] && records + [] == records;
  }

  lemma InitInv(now: Int64)
    ensures Inv(Init(now))
  {
    var s := Init(now);
    StartInv(s, [], now);
    assert SnapsAgree(s.snaps, []) by { assert SameFrom(map[], Replay(map[], []), now); }
  }

  lemma CutEncoding(a: seq<Mutation>, b: seq<Mutation>, file: seq<Byte>, buffer: seq<Byte>)
    requires file + buffer == EncodeAll(a)
    ensures file <= EncodeAll(a + b)
  {
    EncodeAllAppend(a, b);
    assert file + buffer + EncodeAll(b) == file + (buffer + EncodeAll(b));
  }

  lemma AfterWritten(base: seq<Mutation>, w: seq<Mutation>, x: seq<Mutation>, y: seq<Mutation>, z: seq<Mutation>)
    ensures base + (w + x + y + z) == base + w + (x + y + z)
  {
  }

  /** The file is always a prefix of the lineage's encoding, cut somewhere. */
  lemma FileIsPrefix(s: Server)
    requires P.Inv(s.pipe) && Feeds(s)
    ensures s.pipe.file <= EncodeAll(Lineage(s))
  {
    var rest, buffer := P.ConservationOf(s.pipe);
    var p, behind, held := s.pipe, P.Behind(s.pipe), Held(s.actor.tank);
    AfterWritten(p.base, p.written, rest, behind, held);
    CutEncoding(p.base + p.written, rest + behind + held, p.file, buffer);
  }

  // ------------------------------------------------------------------ steps

  lemma LiveReplayLater(live: Store, replayed: Store, t: int, u: int)
    requires LiveReplay(live, replayed, t) && t <= u
    ensures LiveReplay(live, replayed, u)
  {
  }

  lemma QuietActor(s: A.Actor, a: A.Label)
    requires A.Enabled(s, a) && !a.Handle? && !a.Finish?
    ensures var t := A.Next(s, a);
            t.order == s.order && t.store == s.store && t.start == s.start && s.now <= t.now &&
            Held(t.tank) == Held(s.tank)
  {
  }

  lemma QuietStep(s: Server, a: A.Label)
    requires Inv(s) && Enabled(s, Act(a)) && !a.Handle?
    ensures Inv(Next(s, Act(a)))
  {
    var t := Next(s, Act(a));
    A.StepInv(s.actor, a);
    QuietActor(s.actor, a);
    assert Lineage(t) == Lineage(s);
    LiveReplayLater(s.actor.store, Replay(map[], Lineage(s)), s.actor.now, t.actor.now);
  }

  lemma HandleLog(s: A.Actor, c: Clock)
    requires A.Enabled(s, A.Handle(c)) && A.Sequential(s)
    ensures var t := A.Next(s, A.Handle(c));
            var m := A.OutcomeOf(s, A.Handle(c)).mutation;
            && RunLog(t.start, A.Ops(t.order)) == RunLog(s.start, A.Ops(s.order)) + OptSeq(m)
  {
    var t := A.Next(s, A.Handle(c));
    A.OpsSnoc(s.order, t.order[|s.order|]);
    RunSnoc(s.start, A.Ops(s.order), t.order[|s.order|].timed);
  }

  lemma SnapSnoc(snaps: seq<Snap>, lineage: seq<Mutation>, m: Mutation, x: Snap)
    requires SnapsAgree(snaps, lineage)
    requires SameFrom(x.store, Replay(map[], lineage + [m]), x.time)
    ensures SnapsAgree(snaps + [x], lineage + [m])
  {
    var ss, ll := snaps + [x], lineage + [m];
    forall i | 0 <= i < |ss| ensures SameFrom(ss[i].store, Replay(map[], ll[..i]), ss[i].time) {
      if i < |snaps| {
        assert ll[..i] == lineage[..i];
      } else {
        assert ll[..i] == ll;
      }
    }
  }

  /** Applying one more mutation, or none, to the live store and to the lineage. */
  lemma Extended(s: Server, t: Server, m: Option<Mutation>)
    requires SnapsAgree(s.snaps, Lineage(s))
    requires Lineage(t) == Lineage(s) + OptSeq(m)
    requires LiveReplay(t.actor.store, ApplyOpt(Replay(map[], Lineage(s)), m), t.actor.now)
    requires t.snaps == if m.Some? then s.snaps + [Snap(t.actor.store, t.actor.now)] else s.snaps
    ensures Replayable(t) && SnapsAgree(t.snaps, Lineage(t))
  {
    if m.Some? {
      ReplaySnoc(map[], Lineage(s), m.value);
      LiveReplaySame(t.actor.store, Replay(map[], Lineage(t)), t.actor.now);
      SnapSnoc(s.snaps, Lineage(s), m.value, Snap(t.actor.store, t.actor.now));
    } else {
      assert Lineage(t) == Lineage(s);
    }
  }

  lemma HandledInv(s: Server, t: Server, c: Clock, d: Outcome)
    requires Feeds(s) && SnapsAgree(s.snaps, Lineage(s))
    requires A.Enabled(s.actor, A.Handle(c)) && t.actor == A.Succ(s.actor, A.Handle(c), d) && t.pipe == s.pipe
    requires Applied(t) == Applied(s) + OptSeq(d.mutation)
    requires LiveReplay(d.store, ApplyOpt(Replay(map[], Lineage(s)), d.mutation), c.later)
    requires t.snaps == if d.mutation.Some? then s.snaps + [Snap(t.actor.store, t.actor.now)] else s.snaps
    ensures Feeds(t) && Replayable(t) && SnapsAgree(t.snaps, Lineage(t))
  {
    assert s.pipe.base + (Applied(s) + OptSeq(d.mutation)) == Lineage(s) + OptSeq(d.mutation);
    Extended(s, t, d.mutation);
    assert s.pipe.fed + [] == s.pipe.fed;
  }

  lemma HandleStep(s: Server, c: Clock)
    requires Inv(s) && Enabled(s, Act(A.Handle(c)))
    ensures Inv(Next(s, Act(A.Handle(c))))
  {
    var d := A.OutcomeOf(s.actor, A.Handle(c));
    A.StepInv(s.actor, A.Handle(c));
    HandleLog(s.actor, c);
    DigestKeepsLiveReplay(s.actor.store, Replay(map[], Lineage(s)), s.actor.requests[s.actor.tank.id], c, s.actor.now);
    HandledInv(s, Next(s, Act(A.Handle(c))), c, d);
  }

  /** Handing the held mutation to the log moves it from the tank's hands to the fed sequence. */
  lemma FeedFacts(s: Server)
    requires Feeds(s) && Enabled(s, FeedLog)
    ensures var t := Next(s, FeedLog);
            && Feeds(t) && Lineage(t) == Lineage(s) && t.snaps == s.snaps && t.history == s.history
            && t.actor.store == s.actor.store && t.actor.now == s.actor.now && t.pipe.base == s.pipe.base
  {
    var t := Next(s, FeedLog);
    assert t.actor.order == s.actor.order && t.actor.start == s.actor.start;
    assert t.pipe.fed == s.pipe.fed + Held(s.actor.tank);
    assert t.pipe.fed + [] == t.pipe.fed;
  }

  lemma FeedStep(s: Server)
    requires Inv(s) && Enabled(s, FeedLog)
    ensures Inv(Next(s, FeedLog))
  {
    A.StepInv(s.actor, A.Finish);
    if s.actor.tank.mutation.Some? {
      P.StepInv(s.pipe, P.Feed(s.actor.tank.mutation.value));
    }
    FeedFacts(s);
  }

  lemma PersistKeeps(p: P.Pipe, l: P.Label)
    requires P.Enabled(p, l) && !l.Feed?
    ensures P.Next(p, l).base == p.base && P.Next(p, l).fed == p.fed
  {
  }

  lemma PersistStep(s: Server, l: P.Label)
    requires Inv(s) && Enabled(s, Persist(l))
    ensures Inv(Next(s, Persist(l)))
  {
    P.StepInv(s.pipe, l);
    PersistKeeps(s.pipe, l);
    assert Lineage(Next(s, Persist(l))) == Lineage(s);
  }

  lemma {:induction false} EncodeAllPositive(ms: seq<Mutation>)
    ensures |EncodeAll(ms)| >= |ms|
    decreases |ms|
  {
    if ms != [] {
      EncodeAllCons(ms);
      EncodeAllPositive(ms[1..]);
    }
  }

  /** Prefixes of one list compare by the length of their encodings. */
  lemma PrefixByBytes(all: seq<Mutation>, a: seq<Mutation>, b: seq<Mutation>)
    requires a <= all && b <= all && |EncodeAll(a)| <= |EncodeAll(b)|
    ensures a <= b
  {
    if |b| < |a| {
      assert a == b + a[|b|..];
      EncodeAllAppend(b, a[|b|..]);
      EncodeAllPositive(a[|b|..]);
      assert false;
    }
  }

  lemma BaseSurvives(s: Server)
    requires Inv(s) && ReadAll(s.pipe.file).last == Eof
    requires ReadAll(s.pipe.file).records <= Lineage(s) && s.pipe.file == EncodeAll(ReadAll(s.pipe.file).records)
    ensures s.pipe.base <= ReadAll(s.pipe.file).records
  {
    PrefixByBytes(Lineage(s), s.pipe.base, ReadAll(s.pipe.file).records);
  }

  /** A file that starts cleanly holds the old base and a prefix of what the last era applied. */
  lemma RestartRecords(s: Server)
    requires Inv(s) && ReadAll(s.pipe.file).last == Eof
    ensures var records := ReadAll(s.pipe.file).records;
            s.pipe.file == EncodeAll(records) && s.pipe.base <= records <= Lineage(s)
  {
    FileIsPrefix(s);
    CleanFileIsEncoding(Lineage(s), s.pipe.file);
    BaseSurvives(s);
  }

  lemma SnapsPrefix(snaps: seq<Snap>, lineage: seq<Mutation>, records: seq<Mutation>)
    requires SnapsAgree(snaps, lineage) && records <= lineage
    ensures SnapsAgree(snaps[..|records| + 1], records)
  {
    var kept := snaps[..|records| + 1];
    forall i | 0 <= i < |kept| ensures SameFrom(kept[i].store, Replay(map[], records[..i]), kept[i].time) {
      assert records[..i] == lineage[..i];
    }
  }

  lemma {:induction false} SurvivorsSnoc(h: seq<Era>, e: Era)
    requires ErasWell(h) && e.kept <= |e.applied|
    ensures ErasWell(h + [e]) && Survivors(h + [e]) == Survivors(h) + e.applied[..e.kept]
    decreases |h|
  {
    if h == [] {
      assert h + [e] == [e] && Survivors([e][1..]) == [];
    } else {
      SurvivorsSnoc(h[1..], e);
      assert (h + [e])[1..] == h[1..] + [e];
    }
  }

  lemma RestartedInv(s: Server, now: Int64, records: seq<Mutation>)
    requires SnapsAgree(s.snaps, Lineage(s)) && ErasWell(s.history) && s.pipe.base == Survivors(s.history)
    requires s.pipe.base <= records <= Lineage(s) && s.pipe.file == EncodeAll(records)
    ensures Inv(Restarted(s, now, records))
  {
    var t := Restarted(s, now, records);
    StartInv(t, records, now);
    SnapsPrefix(s.snaps, Lineage(s), records);
    var e := Era(Applied(s), |records| - |s.pipe.base|);
    SurvivorsSnoc(s.history, e);
    assert records == s.pipe.base + e.applied[..e.kept];
  }

  lemma RestartStep(s: Server, now: Int64)
    requires Inv(s) && Enabled(s, Restart(now))
    ensures Inv(Next(s, Restart(now)))
  {
    RestartRecords(s);
    RestartedInv(s, now, ReadAll(s.pipe.file).records);
  }

  lemma StepInv(s: Server, l: Label)
    requires Inv(s) && Enabled(s, l)
    ensures Inv(Next(s, l))
  {
    match l {
      case Act(a) =>
        match a {
          case Handle(c) => HandleStep(s, c);
          case _ => QuietStep(s, a);
        }
      case Persist(p) => PersistStep(s, p);
      case FeedLog => FeedStep(s);
      case Crash =>
        assert Lineage(Next(s, Crash)) == Lineage(s);
      case Restart(now) => RestartStep(s, now);
    }
  }

  // ------------------------------------------------------------------- runs

  predicate Possible(s: Server, ls: seq<Label>)
    decreases |ls|
  {
    ls == [] || (Enabled(s, ls[0]) && Possible(Next(s, ls[0]), ls[1..]))
  }

  function Run(s: Server, ls: seq<Label>): Server
    requires Possible(s, ls)
    decreases |ls|
  {
    if ls == [] then s else Run(Next(s, ls[0]), ls[1..])
  }

  lemma {:induction false} RunInv(s: Server, ls: seq<Label>)
    requires Inv(s) && Possible(s, ls)
    ensures Inv(Run(s, ls))
    decreases |ls|
  {
    if ls != [] {
      StepInv(s, ls[0]);
      RunInv(Next(s, ls[0]), ls[1..]);
    }
  }

  lemma Reachable(now: Int64, ls: seq<Label>)
    requires Possible(Init(now), ls)
    ensures Inv(Run(Init(now), ls))
  {
    InitInv(now);
    RunInv(Init(now), ls);
  }

  /** What the recovery results need of a reachable state, about its file and its history. */
  lemma ReachableFile(now: Int64, ls: seq<Label>)
    requires Possible(Init(now), ls)
    ensures var s := Run(Init(now), ls);
            && s.pipe.file <= EncodeAll(s.pipe.base + Applied(s)) && |EncodeAll(s.pipe.base)| <= |s.pipe.file|
            && ErasWell(s.history) && s.pipe.base == Survivors(s.history)
  {
    Reachable(now, ls);
    FileIsPrefix(Run(Init(now), ls));
  }

  lemma ReachableStores(now: Int64, ls: seq<Label>)
    requires Possible(Init(now), ls)
    ensures var s := Run(Init(now), ls);
            && SnapsAgree(s.snaps, s.pipe.base + Applied(s))
            && SameFrom(s.actor.store, Replay(map[], s.pipe.base + Applied(s)), s.actor.now)
  {
    Reachable(now, ls);
    var s := Run(Init(now), ls);
    LiveReplaySame(s.actor.store, Replay(map[], Lineage(s)), s.actor.now);
  }

  lemma SliceOfSum<T>(a: seq<T>, b: seq<T>, m: nat)
    requires |a| <= m <= |a + b|
    ensures (a + b)[..m] == a + b[..m - |a|]
  {
  }

  /** The records a file holds whole: the old base and a prefix of what was applied since. */
  lemma RecordsOf(base: seq<Mutation>, applied: seq<Mutation>, file: seq<Byte>) returns (n: nat)
    requires file <= EncodeAll(base + applied) && |EncodeAll(base)| <= |file|
    ensures n <= |applied| && ReadAll(file).records == base + applied[..n] == (base + applied)[..|base| + n]
    ensures ReadAll(file).last in {Eof, UnexpectedEof}
  {
    var m := PrefixReads(base + applied, file);
    WholeCovers(base, applied, |file|);
    SliceOfSum(base, applied, m);
    n := m - |base|;
  }

  /**
   Crash recovery. In every reachable state, across any number of crashes and restarts,
   up or down: the complete records in the file are the first n of the lineage, in apply
   order; replaying them into an empty store gives a store no client can tell, then or
   later, from the live store as it was right after the n-th of them was applied; and if
   the file holds the whole lineage, from the live store as it is now.
   */
  lemma CrashRecovery(now: Int64, ls: seq<Label>) returns (n: nat)
    requires Possible(Init(now), ls)
    ensures var s := Run(Init(now), ls);
            var records := ReadAll(s.pipe.file).records;
            && n < |s.snaps| == |Lineage(s)| + 1
            && records == Lineage(s)[..n]
            && SameFrom(s.snaps[n].store, Replay(map[], records), s.snaps[n].time)
            && (n == |Lineage(s)| ==> SameFrom(s.actor.store, Replay(map[], records), s.actor.now))
  {
    ReachableFile(now, ls);
    ReachableStores(now, ls);
    var s := Run(Init(now), ls);
    var k := RecordsOf(s.pipe.base, Applied(s), s.pipe.file);
    n := |s.pipe.base| + k;
    if n == |Lineage(s)| { assert Lineage(s)[..n] == Lineage(s); }
  }

  /** After a restart, the live store is what the recovered records describe, to every observer. */
  lemma RestartRestores(now: Int64, ls: seq<Label>, again: Int64)
    requires Possible(Init(now), ls) && Enabled(Run(Init(now), ls), Restart(again))
    ensures var s := Run(Init(now), ls);
            var t := Next(s, Restart(again));
            var n := |ReadAll(s.pipe.file).records|;
            n < |s.snaps| && t.actor.store == Replay(map[], ReadAll(s.pipe.file).records) &&
            SameFrom(s.snaps[n].store, t.actor.store, s.snaps[n].time)
  {
    var n := CrashRecovery(now, ls);
  }

  /**
   Across restarts, what the file holds is a prefix of each finished era followed by a
   prefix of the current one.
   */
  lemma FileIsPrefixOfEachEra(now: Int64, ls: seq<Label>) returns (survivors: seq<Mutation>, n: nat)
    requires Possible(Init(now), ls)
    ensures var s := Run(Init(now), ls);
            && ErasWell(s.history) && survivors == Survivors(s.history)
            && n <= |Applied(s)|
            && ReadAll(s.pipe.file).records == survivors + Applied(s)[..n]
  {
    ReachableFile(now, ls);
    var s := Run(Init(now), ls);
    survivors := Survivors(s.history);
    n := RecordsOf(s.pipe.base, Applied(s), s.pipe.file);
  }
}
