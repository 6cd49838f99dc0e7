/**
 One sewer (src/sewer.c) with any number of sending threads and one consuming thread,
 at the granularity of its mutex and condition variables. A signal wakes one sleeper if
 there is one; any sleeper may also wake spuriously, and a timed consumer may time out
 at any moment. Items carry the identity of their sender.
 */
module SewerMonitor {
  import opened Prelude

  type Msg = nat

  datatype Item = Item(sender: nat, msg: Msg)

  datatype SenderPc =
    | Away
    | Locking(m: Msg)
    | Testing(m: Msg, woken: bool)   // mutex held: at the `is_full` test
    | Sleeping(m: Msg)               // in pthread_cond_wait(has_space)
    | Woken(m: Msg)                  // must take the mutex again
    | Signalling                     // mutex held: pushed, has_items not signalled yet
    | Unlocking                      // mutex held

  datatype ConsumerPc =
    | Idle
    | Entering
    | Looking                        // mutex held: at the `is_empty` test
    | Dozing                         // in pthread_cond_(timed)wait(has_items)
    | Roused                         // must take the mutex again, then test again
    | Expired                        // timed out: must take the mutex, then return NULL
    | Telling(got: Item)             // mutex held: popped, has_space not signalled yet
    | Leaving(result: Option<Item>)  // mutex held

  datatype Owner = Free | Sender(id: nat) | Consumer

  /**
   The last six fields record what happened: the messages each sender was asked to send, what
   was pushed and popped, and of the consume calls, by number, which were timed, what each
   returned and which gave up on a timeout.
   */
  datatype Sewer = Sewer(
    cap: nat, buffer: seq<Item>, mutex: Owner,
    senders: map<nat, SenderPc>, consumer: ConsumerPc, timed: bool,
    calls: map<nat, seq<Msg>>, sent: seq<Item>, received: seq<Item>,
    consumes: seq<bool>, returned: seq<Option<Item>>, gaveUp: set<nat>)

  function Init(cap: nat): Sewer {
    Sewer(cap, [], Free, map[], Idle, false, map[], [], [], [], [], {})
  }

  datatype Label =
    | SendCall(i: nat, m: Msg) | SendLock(i: nat) | SendRelock(i: nat) | SendSleep(i: nat) | SendPush(i: nat)
    | SendSignal(i: nat) | SendUnlock(i: nat) | SendSpurious(i: nat)
    | ConsumeCall(timed: bool) | ConsumeLock | ConsumeRelock | ConsumeSleep | ConsumePop
    | ConsumeSignal(wake: Option<nat>) | ConsumeUnlock | ConsumeSpurious | TimeOut | GiveUp

  predicate Sleeper(s: Sewer, i: nat) { i in s.senders && s.senders[i].Sleeping? }

  ghost predicate SomeSleeper(s: Sewer) { exists i :: Sleeper(s, i) }

  predicate Full(s: Sewer) { |s.buffer| >= s.cap }

  ghost predicate Enabled(s: Sewer, l: Label) {
    match l
    case SendCall(i, _) => i in s.senders ==> s.senders[i].Away?
    case SendLock(i) => i in s.senders && s.senders[i].Locking? && s.mutex.Free?
    case SendRelock(i) => i in s.senders && s.senders[i].Woken? && s.mutex.Free?
    case SendSleep(i) => i in s.senders && s.senders[i].Testing? && Full(s)
    case SendPush(i) => i in s.senders && s.senders[i].Testing? && !Full(s)
    case SendSignal(i) => i in s.senders && s.senders[i].Signalling?
    case SendUnlock(i) => i in s.senders && s.senders[i].Unlocking?
    case SendSpurious(i) => Sleeper(s, i)
    case ConsumeCall(_) => s.consumer.Idle?
    case ConsumeLock => s.consumer.Entering? && s.mutex.Free?
    case ConsumeRelock => s.consumer.Roused? && s.mutex.Free?
    case ConsumeSleep => s.consumer.Looking? && s.buffer == []
    case ConsumePop => s.consumer.Looking? && s.buffer != []
    case ConsumeSignal(wake) => s.consumer.Telling? && if wake.Some? then Sleeper(s, wake.value) else !SomeSleeper(s)
    case ConsumeUnlock => s.consumer.Leaving?
    case ConsumeSpurious => s.consumer.Dozing?
    case TimeOut => s.timed && (s.consumer.Dozing? || s.consumer.Roused?)
    case GiveUp => s.consumer.Expired? && s.mutex.Free?
  }

  ghost function Move(s: Sewer, i: nat, pc: SenderPc): Sewer { s.(senders := s.senders[i := pc]) }

  ghost function CallsOf(s: Sewer, i: nat): seq<Msg> { if i in s.calls then s.calls[i] else [] }

  ghost function Next(s: Sewer, l: Label): Sewer
    requires Enabled(s, l)
  {
    match l
    case SendCall(i, m) => Move(s, i, Locking(m)).(calls := s.calls[i := CallsOf(s, i) + [m]])
    case SendLock(i) => Move(s, i, Testing(s.senders[i].m, false)).(mutex := Sender(i))
    case SendRelock(i) => Move(s, i, Testing(s.senders[i].m, true)).(mutex := Sender(i))
    case SendSleep(i) => Move(s, i, Sleeping(s.senders[i].m)).(mutex := Free)
    case SendPush(i) =>
      var item := Item(i, s.senders[i].m);
      Move(s, i, Signalling).(buffer := s.buffer + [item], sent := s.sent + [item])
    case SendSignal(i) => Move(s, i, Unlocking).(consumer := if s.consumer.Dozing? then Roused else s.consumer)
    case SendUnlock(i) => Move(s, i, Away).(mutex := Free)
    case SendSpurious(i) => Move(s, i, Woken(s.senders[i].m))
    case ConsumeCall(timed) => s.(consumer := Entering, timed := timed, consumes := s.consumes + [timed])
    case ConsumeLock => s.(consumer := Looking, mutex := Consumer)
    case ConsumeRelock => s.(consumer := Looking, mutex := Consumer)
    case ConsumeSleep => s.(consumer := Dozing, mutex := Free)
    case ConsumePop =>
      s.(consumer := Telling(s.buffer[0]), buffer := s.buffer[1..], received := s.received + [s.buffer[0]])
    case ConsumeSignal(wake) =>
      (if wake.Some? then Move(s, wake.value, Woken(s.senders[wake.value].m)) else s)
        .(consumer := Leaving(Some(s.consumer.got)))
    case ConsumeUnlock => s.(consumer := Idle, mutex := Free, returned := s.returned + [s.consumer.result])
    case ConsumeSpurious => s.(consumer := Roused)
    case TimeOut => s.(consumer := Expired)
    case GiveUp => s.(consumer := Leaving(None), mutex := Consumer, gaveUp := s.gaveUp + {|s.returned|})
  }

  // -------------------------------------------------------------- invariant

  predicate SenderHolds(pc: SenderPc) { pc.Testing? || pc.Signalling? || pc.Unlocking? }

  predicate ConsumerHolds(pc: ConsumerPc) { pc.Looking? || pc.Telling? || pc.Leaving? }

  ghost predicate Mutual(s: Sewer) {
    && (s.mutex.Consumer? <==> ConsumerHolds(s.consumer))
    && (forall i :: i in s.senders ==> (SenderHolds(s.senders[i]) <==> s.mutex == Sender(i)))
    && (s.mutex.Sender? ==> s.mutex.id in s.senders)
  }

  /** What was pushed and not popped, in order, never more than the capacity. */
  ghost predicate Fifo(s: Sewer) {
    s.received + s.buffer == s.sent && |s.buffer| <= s.cap
  }

  /** The messages sender i pushed, in order. */
  ghost function Pushed(sent: seq<Item>, i: nat): seq<Msg> {
    if sent == [] then []
    else
      var x := sent[|sent| - 1];
      Pushed(sent[..|sent| - 1], i) + if x.sender == i then [x.msg] else []
  }

  function Pending(pc: SenderPc): seq<Msg> {
    if pc.Locking? || pc.Testing? || pc.Sleeping? || pc.Woken? then [pc.m] else []
  }

  /** Each call pushes its message once: pushed messages, then the one in progress, are the calls made. */
  ghost predicate ExactlyOnce(s: Sewer) {
    && s.calls.Keys == s.senders.Keys
    && (forall i :: i in s.senders ==> Pushed(s.sent, i) + Pending(s.senders[i]) == s.calls[i])
    && (forall i :: i !in s.senders ==> Pushed(s.sent, i) == [])
  }

  /** The consumer sleeps on a nonempty buffer only while the pusher is about to signal. */
  ghost predicate ConsumerNotLost(s: Sewer) {
    s.consumer.Dozing? && s.buffer != [] ==>
      s.mutex.Sender? && s.mutex.id in s.senders && s.senders[s.mutex.id].Signalling?
  }

  ghost function WokenSenders(s: Sewer): set<nat> {
    set i | i in s.senders && (s.senders[i].Woken? || (s.senders[i].Testing? && s.senders[i].woken))
  }

  /** While senders sleep, every free slot has a woken sender, or a signal about to be sent. */
  ghost predicate SendersNotLost(s: Sewer) {
    SomeSleeper(s) ==> s.cap - |s.buffer| <= |WokenSenders(s)| + if s.consumer.Telling? then 1 else 0
  }

  /** The items among the results of finished calls. */
  function Handed(returned: seq<Option<Item>>): seq<Item> {
    if returned == [] then []
    else
      var x := returned[|returned| - 1];
      Handed(returned[..|returned| - 1]) + if x.Some? then [x.value] else []
  }

  /** What the call in progress has popped and not returned yet. */
  function Holding(pc: ConsumerPc): seq<Item> {
    match pc
    case Telling(x) => [x]
    case Leaving(Some(x)) => [x]
    case _ => []
  }

  /** What was popped is returned by the call that popped it. */
  ghost predicate HandsOver(s: Sewer) {
    s.received == Handed(s.returned) + Holding(s.consumer)
  }

  /** Each call returns once, and returns NULL exactly if it was timed and gave up. */
  ghost predicate NullOnTimeout(s: Sewer) {
    && |s.consumes| == |s.returned| + (if s.consumer.Idle? then 0 else 1)
    && (!s.consumer.Idle? ==> s.consumes[|s.returned|] == s.timed)
    && (s.consumer.Expired? ==> s.timed)
    && (forall k :: 0 <= k < |s.returned| ==> (s.returned[k].None? <==> k in s.gaveUp))
    && (|s.returned| in s.gaveUp <==> s.consumer == Leaving(None))
    && (forall k :: k in s.gaveUp ==> k < |s.consumes| && s.consumes[k])
  }

  ghost predicate Inv(s: Sewer) {
    Mutual(s) && Fifo(s) && HandsOver(s) && NullOnTimeout(s) && ExactlyOnce(s) && ConsumerNotLost(s) && SendersNotLost(s)
  }

  predicate BySender(l: Label) {
    l.SendCall? || l.SendLock? || l.SendRelock? || l.SendSleep? || l.SendPush? || l.SendSignal? || l.SendUnlock? || l.SendSpurious?
  }

  lemma SenderMutual(s: Sewer, l: Label)
    requires Mutual(s) && Enabled(s, l) && BySender(l)
    ensures Mutual(Next(s, l))
  {
  }

  lemma ConsumerMutual(s: Sewer, l: Label)
    requires Mutual(s) && Enabled(s, l) && !BySender(l)
    ensures Mutual(Next(s, l))
  {
  }

  lemma StepMutual(s: Sewer, l: Label)
    requires Mutual(s) && Enabled(s, l)
    ensures Mutual(Next(s, l))
  {
    hide Mutual, Enabled, Next, BySender;
    if BySender(l) { SenderMutual(s, l); } else { ConsumerMutual(s, l); }
  }

  lemma StepFifo(s: Sewer, l: Label)
    requires Fifo(s) && Enabled(s, l)
    ensures Fifo(Next(s, l))
  {
  }

  lemma StepHandsOver(s: Sewer, l: Label)
    requires HandsOver(s) && Enabled(s, l)
    ensures HandsOver(Next(s, l))
  {
    if l.ConsumeUnlock? {
      assert Next(s, l).returned[..|s.returned|] == s.returned;
    }
  }

  lemma SenderKeepsCalls(s: Sewer, l: Label)
    requires NullOnTimeout(s) && Enabled(s, l) && BySender(l)
    ensures NullOnTimeout(Next(s, l))
  {
  }

  lemma ConsumerNull(s: Sewer, l: Label)
    requires NullOnTimeout(s) && Enabled(s, l) && !BySender(l)
    ensures NullOnTimeout(Next(s, l))
  {
  }

  lemma StepNullOnTimeout(s: Sewer, l: Label)
    requires NullOnTimeout(s) && Enabled(s, l)
    ensures NullOnTimeout(Next(s, l))
  {
    hide NullOnTimeout, Enabled, Next, BySender;
    if BySender(l) { SenderKeepsCalls(s, l); } else { ConsumerNull(s, l); }
  }

  lemma PushedSnoc(sent: seq<Item>, x: Item, i: nat)
    ensures Pushed(sent + [x], i) == Pushed(sent, i) + if x.sender == i then [x.msg] else []
  {
    assert (sent + [x])[..|sent|] == sent;
  }

  lemma PushExactlyOnce(s: Sewer, i: nat)
    requires ExactlyOnce(s) && Enabled(s, SendPush(i))
    ensures ExactlyOnce(Next(s, SendPush(i)))
  {
    var t := Next(s, SendPush(i));
    forall j ensures Pushed(t.sent, j) == Pushed(s.sent, j) + if j == i then [s.senders[i].m] else [] {
      PushedSnoc(s.sent, Item(i, s.senders[i].m), j);
    }
  }

  lemma CallExactlyOnce(s: Sewer, i: nat, m: Msg)
    requires ExactlyOnce(s) && Enabled(s, SendCall(i, m))
    ensures ExactlyOnce(Next(s, SendCall(i, m)))
  {
  }

  /** Apart from calls and pushes, no thread's pending message changes. */
  lemma QuietPending(s: Sewer, l: Label)
    requires Enabled(s, l) && !l.SendCall? && !l.SendPush?
    ensures var t := Next(s, l);
            && t.sent == s.sent && t.calls == s.calls && t.senders.Keys == s.senders.Keys
            && (forall j :: j in s.senders ==> Pending(t.senders[j]) == Pending(s.senders[j]))
  {
  }

  lemma StepExactlyOnce(s: Sewer, l: Label)
    requires ExactlyOnce(s) && Enabled(s, l)
    ensures ExactlyOnce(Next(s, l))
  {
    if l.SendPush? { PushExactlyOnce(s, l.i); }
    else if l.SendCall? { CallExactlyOnce(s, l.i, l.m); }
    else { QuietPending(s, l); }
  }

  lemma StepConsumerNotLost(s: Sewer, l: Label)
    requires Mutual(s) && ConsumerNotLost(s) && Enabled(s, l)
    ensures ConsumerNotLost(Next(s, l))
  {
  }

  lemma StillSleeping(s: Sewer, l: Label)
    requires Enabled(s, l) && !l.SendSleep? && SomeSleeper(Next(s, l))
    ensures SomeSleeper(s)
  {
    var i :| Sleeper(Next(s, l), i);
    assert Sleeper(s, i);
  }

  /** How many woken senders a step adds, at least, against the slots it frees. */
  lemma SenderWoken(s: Sewer, l: Label)
    requires Enabled(s, l) && !l.SendPush? && !l.ConsumePop? && !l.ConsumeSignal? && !l.SendSleep?
    ensures |WokenSenders(Next(s, l))| >= |WokenSenders(s)|
    ensures |Next(s, l).buffer| == |s.buffer| && Next(s, l).consumer.Telling? == s.consumer.Telling?
  {
    var a, b := WokenSenders(s), WokenSenders(Next(s, l));
    if l.SendSpurious? {
      assert b == a + {l.i};
    } else {
      assert b == a;
    }
  }

  lemma PushWoken(s: Sewer, i: nat)
    requires Enabled(s, SendPush(i))
    ensures |WokenSenders(Next(s, SendPush(i)))| >= |WokenSenders(s)| - 1
  {
    assert WokenSenders(Next(s, SendPush(i))) == WokenSenders(s) - {i};
  }

  lemma WakingAdds(s: Sewer, t: Sewer, i: nat)
    requires Sleeper(s, i) && t.senders == s.senders[i := Woken(s.senders[i].m)]
    ensures |WokenSenders(t)| == |WokenSenders(s)| + 1
  {
    assert WokenSenders(t) == WokenSenders(s) + {i};
  }

  lemma SignalWoken(s: Sewer, i: nat)
    requires Enabled(s, ConsumeSignal(Some(i)))
    ensures |WokenSenders(Next(s, ConsumeSignal(Some(i))))| == |WokenSenders(s)| + 1
  {
    var t := Next(s, ConsumeSignal(Some(i)));
    assert t.senders == s.senders[i := Woken(s.senders[i].m)];
    WakingAdds(s, t, i);
  }

  lemma StepSendersNotLost(s: Sewer, l: Label)
    requires Fifo(s) && SendersNotLost(s) && Enabled(s, l)
    ensures SendersNotLost(Next(s, l))
  {
    var t := Next(s, l);
    if l.SendSleep? {
      assert t.cap - |t.buffer| <= 0;
    } else if SomeSleeper(t) {
      StillSleeping(s, l);
      if l.SendPush? {
        PushWoken(s, l.i);
      } else if l.ConsumeSignal? {
        if l.wake.Some? { SignalWoken(s, l.wake.value); }
      } else if l.ConsumePop? {
        assert t.senders == s.senders;
      } else {
        SenderWoken(s, l);
      }
    }
  }

  lemma StepInv(s: Sewer, l: Label)
    requires Inv(s) && Enabled(s, l)
    ensures Inv(Next(s, l))
  {
    StepMutual(s, l);
    StepFifo(s, l);
    StepHandsOver(s, l);
    StepNullOnTimeout(s, l);
    StepExactlyOnce(s, l);
    StepConsumerNotLost(s, l);
    StepSendersNotLost(s, l);
  }

  // ------------------------------------------------------------------- runs

  ghost predicate Possible(s: Sewer, ls: seq<Label>)
    decreases |ls|
  {
    ls == [] || (Enabled(s, ls[0]) && Possible(Next(s, ls[0]), ls[1..]))
  }

  ghost function Run(s: Sewer, ls: seq<Label>): Sewer
    requires Possible(s, ls)
    decreases |ls|
  {
    if ls == [] then s else Run(Next(s, ls[0]), ls[1..])
  }

  lemma {:induction false} RunInv(s: Sewer, ls: seq<Label>)
    requires Inv(s) && Possible(s, ls)
    ensures Inv(Run(s, ls)) && Run(s, ls).cap == s.cap
    decreases |ls|
  {
    if ls != [] {
      StepInv(s, ls[0]);
      RunInv(Next(s, ls[0]), ls[1..]);
    }
  }

  lemma Reachable(cap: nat, ls: seq<Label>)
    requires Possible(Init(cap), ls)
    ensures Inv(Run(Init(cap), ls)) && Run(Init(cap), ls).cap == cap
  {
    assert Inv(Init(cap));
    RunInv(Init(cap), ls);
  }

  /**
   Under every interleaving, with spurious wakeups and timeouts, a sewer is a bounded FIFO
   that delivers exactly once: what consume calls returned, then what the call in progress is
   about to return, then what is buffered, is what was pushed; and what each sender pushed, then
   the message it is sending, is what it was asked to send.
   */
  lemma BoundedExactlyOnceFifo(cap: nat, ls: seq<Label>)
    requires Possible(Init(cap), ls)
    ensures var s := Run(Init(cap), ls);
            && Handed(s.returned) + Holding(s.consumer) + s.buffer == s.sent && |s.buffer| <= cap
            && s.calls.Keys == s.senders.Keys
            && (forall i :: i in s.senders ==> Pushed(s.sent, i) + Pending(s.senders[i]) == s.calls[i])
  {
    Reachable(cap, ls);
  }

  /**
   In every reachable state, each finished consume call returned once, in order, and returned
   NULL if and only if it gave up; only a timed call gives up, so `sewer_consume` always returns
   an item.
   */
  lemma NullOnlyOnTimeout(cap: nat, ls: seq<Label>)
    requires Possible(Init(cap), ls)
    ensures var s := Run(Init(cap), ls);
            && |s.consumes| == |s.returned| + (if s.consumer.Idle? then 0 else 1)
            && (forall k :: 0 <= k < |s.returned| ==>
                  && (s.returned[k].None? <==> k in s.gaveUp)
                  && (s.returned[k].None? ==> s.consumes[k]))
  {
    Reachable(cap, ls);
  }

  /**
   No lost wakeup. Whenever the mutex is free: a consumer asleep has nothing to consume;
   and while senders sleep, free slots never outnumber the senders already woken.
   */
  lemma NoLostWakeup(cap: nat, ls: seq<Label>)
    requires Possible(Init(cap), ls)
    ensures var s := Run(Init(cap), ls);
            s.mutex.Free? ==>
              && (s.consumer.Dozing? ==> s.buffer == [])
              && (SomeSleeper(s) ==> cap - |s.buffer| <= |WokenSenders(s)|)
  {
    Reachable(cap, ls);
  }

  predicate IsWakeOrSpurious(l: Label) {
    l.SendSpurious? || l.ConsumeSpurious? || l.TimeOut? || l.SendCall? || l.ConsumeCall?
  }

  /** With the mutex held, its holder can move. */
  lemma HolderMoves(s: Sewer) returns (l: Label)
    requires Mutual(s) && !s.mutex.Free?
    ensures Enabled(s, l) && !IsWakeOrSpurious(l)
  {
    match s.mutex {
      case Sender(i) =>
        match s.senders[i] {
          case Testing(_, _) => l := if Full(s) then SendSleep(i) else SendPush(i);
          case Signalling => l := SendSignal(i);
          case Unlocking => l := SendUnlock(i);
        }
      case Consumer =>
        match s.consumer {
          case Looking => l := if s.buffer == [] then ConsumeSleep else ConsumePop;
          case Telling(_) =>
            if SomeSleeper(s) {
              var i :| Sleeper(s, i);
              l := ConsumeSignal(Some(i));
            } else {
              l := ConsumeSignal(None);
            }
          case Leaving(_) => l := ConsumeUnlock;
        }
    }
  }

  lemma SomeoneMoves(s: Sewer, i: nat) returns (l: Label)
    requires Inv(s) && s.cap > 0 && i in s.senders && !s.senders[i].Away? && !(Full(s) && s.consumer.Idle?)
    ensures Enabled(s, l) && !IsWakeOrSpurious(l)
  {
    if !s.mutex.Free? {
      l := HolderMoves(s);
    } else if s.senders[i].Locking? {
      l := SendLock(i);
    } else if s.senders[i].Woken? {
      l := SendRelock(i);
    } else {
      assert Sleeper(s, i);
      if s.consumer.Entering? {
        l := ConsumeLock;
      } else if s.consumer.Roused? {
        l := ConsumeRelock;
      } else if s.consumer.Expired? {
        l := GiveUp;
      } else {
        assert |WokenSenders(s)| >= 1;
        var j :| j in WokenSenders(s);
        l := SendRelock(j);
      }
    }
  }

  /**
   A channel with room never sleeps as a whole: if a sender is inside a call, then some
   thread can take a step of its own, needing no spurious wakeup, timeout or new call,
   unless the buffer is full and the consumer is not in a call.
   */
  lemma NeverAllAsleep(cap: nat, ls: seq<Label>, i: nat) returns (l: Label)
    requires cap > 0 && Possible(Init(cap), ls)
    requires i in Run(Init(cap), ls).senders && !Run(Init(cap), ls).senders[i].Away?
    requires !(Full(Run(Init(cap), ls)) && Run(Init(cap), ls).consumer.Idle?)
    ensures Enabled(Run(Init(cap), ls), l) && !IsWakeOrSpurious(l)
  {
    Reachable(cap, ls);
    l := SomeoneMoves(Run(Init(cap), ls), i);
  }

  /** Seen from outside, every step of the monitor is an atomic enqueue, an atomic dequeue, or nothing. */
  lemma RefinesQueue(s: Sewer, l: Label)
    requires Fifo(s) && HandsOver(s) && Enabled(s, l)
    ensures var t := Next(s, l);
            if l.SendPush? then
              var x := Item(l.i, s.senders[l.i].m);
              && |s.buffer| < s.cap && t.buffer == s.buffer + [x] && t.sent == s.sent + [x]
              && t.received == s.received && t.returned == s.returned
            else if l.ConsumePop? then
              && s.buffer != [] && [t.consumer.got] + t.buffer == s.buffer
              && t.received == s.received + [t.consumer.got] && t.sent == s.sent && t.returned == s.returned
            else
              && t.buffer == s.buffer && t.sent == s.sent && t.received == s.received
              && Handed(t.returned) + Holding(t.consumer) == Handed(s.returned) + Holding(s.consumer)
  {
    StepHandsOver(s, l);
  }
}
