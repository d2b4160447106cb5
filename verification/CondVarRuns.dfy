/** What the condition-variable protocol guarantees over whole runs: no lost wakeup, no deadlock, conservation and
    alternation of messages, a bound on the work between two messages, and a shutdown that ends by itself and freezes
    the count. */
module CondVarRuns {
  import opened CondVar
  import opened Modular

  // ---- Safety in every reachable state ----

  lemma MutualExclusion(ss: seq<State>, steps: seq<Step>, i: nat)
    requires Execution(ss, steps) && i < |ss|
    ensures !(InMain(ss[i].mainPc) && InProducer(ss[i].prodPc))
    ensures !(InMain(ss[i].mainPc) && InConsumer(ss[i].consPc))
    ensures !(InProducer(ss[i].prodPc) && InConsumer(ss[i].consPc))
  {
    InvHolds(ss, steps, i);
  }

  /** The two threads never wait at once, and whenever the mutex is free a waiting thread has nothing to do. */
  lemma NoLostWakeup(ss: seq<State>, steps: seq<Step>, i: nat)
    requires Execution(ss, steps) && i < |ss|
    ensures !(ss[i].prodWaits && ss[i].consWaits)
    ensures ss[i].owner == Free && ss[i].prodWaits ==> ss[i].msgReady && ss[i].running
    ensures ss[i].owner == Free && ss[i].consWaits ==> !ss[i].msgReady && ss[i].running
  {
    InvHolds(ss, steps, i);
  }

  predicate Finished(s: State) {
    s.mainPc == MainDone && s.prodPc == ProdDone && s.consPc == ConsDone
  }

  /** Some thread can go on, without the help of a spurious wakeup, until all three have finished. */
  lemma NoDeadlock(ss: seq<State>, steps: seq<Step>, i: nat)
    requires Execution(ss, steps) && i < |ss|
    ensures Finished(ss[i]) <==> forall t: Thread :: !Enabled(ss[i], Run(t))
  {
    hide Accounts;
    InvHolds(ss, steps, i);
    var s := ss[i];
    if !Finished(s) {
      if !Enabled(s, Run(Main)) && !Enabled(s, Run(Producer)) {
        assert Enabled(s, Run(Consumer));
      }
    }
  }

  /** While main sleeps, one of the two workers can always go on. */
  lemma WorkersNeverStall(ss: seq<State>, steps: seq<Step>, i: nat)
    requires Execution(ss, steps) && i < |ss|
    requires ss[i].mainPc == LockToStop
    ensures Enabled(ss[i], Run(Producer)) || Enabled(ss[i], Run(Consumer))
  {
    hide Accounts;
    InvHolds(ss, steps, i);
  }

  /** No thread gives the mutex back, other than by waiting, without having signalled the other, except a producer that
      has seen the stop. */
  lemma SignalBeforeUnlock(s: State)
    requires Inv(s)
    ensures ConsumerStep(s).consPc == ConsUnlock ==> s.consPc == ConsSignal
    ensures ProducerStep(s).prodPc == ProdUnlock ==> s.prodPc == ProdSignal || !s.running
    ensures ConsumerEnabled(s) && s.owner == HeldBy(Consumer) && ConsumerStep(s).owner == Free
      ==> s.consPc == ConsUnlock || (ConsumerStep(s).consWaits && s.running && !s.msgReady)
    ensures ProducerEnabled(s) && s.owner == HeldBy(Producer) && ProducerStep(s).owner == Free
      ==> s.prodPc == ProdUnlock || (ProducerStep(s).prodWaits && s.running && s.msgReady)
  {
    hide Accounts;
  }

  // ---- Messages ----

  lemma {:induction false} AlternationCounts(events: seq<Event>)
    requires Alternating(events)
    ensures Sends(events) == (|events| + 1) / 2
    ensures Consumptions(events) == |events| / 2
  {
    if events != [] {
      AlternationCounts(events[..|events| - 1]);
    }
  }

  /** Sends and consumptions alternate, beginning with a send, and whenever the mutex is free the count is the number
      of messages consumed plus the pending one. */
  lemma Conservation(ss: seq<State>, steps: seq<Step>, i: nat)
    requires Execution(ss, steps) && i < |ss|
    ensures Alternating(ss[i].events)
    ensures Sends(ss[i].events) == Consumptions(ss[i].events) + (if ss[i].msgReady then 1 else 0)
    ensures ss[i].owner == Free
      ==> ss[i].msgsSent == Uint64(Consumptions(ss[i].events) + (if ss[i].msgReady then 1 else 0))
  {
    InvHolds(ss, steps, i);
    AlternationCounts(ss[i].events);
  }

  // ---- Progress between messages ----

  /** An upper bound on the steps the producer can take before the next event, given what it shares. */
  function ProducerWork(s: State): nat {
    match s.prodPc
    case ProdWaiting => if s.prodWaits then 0 else 4
    case ProdWait => 1
    case ProdTestRunning => 2
    case ProdSetReady => 1
    case ProdCheck => 2
    case ProdTestReady => 3
    case ProdLock => 4
    case ProdHead => 5
    case ProdUnlock => 6
    case ProdSignal => 10
    case ProdCount => 11
    case ProdNew | ProdDone => 0
  }

  function ConsumerWork(s: State): nat {
    match s.consPc
    case ConsWaiting => if s.consWaits then 0 else if s.msgReady then 3 else 4
    case ConsWait => 1
    case ConsTestRunning => 2
    case ConsClear => 1
    case ConsTestReady => if s.msgReady then 2 else 3
    case ConsLock => if s.msgReady then 3 else 4
    case ConsHead => if s.msgReady then 4 else 5
    case ConsUnlock => 6
    case ConsSignal => 11
    case ConsNew | ConsDone => 0
  }

  function Work(s: State): nat {
    ProducerWork(s) + ConsumerWork(s)
  }

  lemma ProducerWorkDecreases(s: State)
    requires Control(s) && s.running && ProducerEnabled(s)
    requires ProducerStep(s).events == s.events
    ensures Work(ProducerStep(s)) < Work(s)
  {
    hide Lifecycle;
  }

  lemma ConsumerWorkDecreases(s: State)
    requires Control(s) && s.running && ConsumerEnabled(s)
    requires ConsumerStep(s).events == s.events
    ensures Work(ConsumerStep(s)) < Work(s)
  {
    hide Lifecycle;
  }

  lemma WorkDecreases(s: State, step: Step)
    requires Inv(s) && s.running && Enabled(s, step) && step != Run(Main)
    requires Take(s, step).events == s.events
    ensures Take(s, step).running
    ensures Work(Take(s, step)) + 1 <= Work(s) + (if step.Run? then 0 else 5)
  {
    hide Accounts, Control, Work;
    match step
    case Run(Producer) => ProducerWorkDecreases(s);
    case Run(Consumer) => ConsumerWorkDecreases(s);
    case WakeProducer => WakeWork(s);
    case WakeConsumer => WakeWork(s);
  }

  lemma WakeWork(s: State)
    ensures Work(s.(prodWaits := false)) <= Work(s) + 4 && Work(s.(consWaits := false)) <= Work(s) + 4
  {
  }

  lemma WorkBound(s: State)
    requires Inv(s)
    ensures Work(s) <= 16
  {
  }

  function Wakes(steps: seq<Step>): nat {
    if steps == [] then 0 else Wakes(steps[..|steps| - 1]) + (if steps[|steps| - 1].Run? then 0 else 1)
  }

  lemma {:induction false} WorkAlongPath(ss: seq<State>, steps: seq<Step>, i: nat, j: nat)
    requires Execution(ss, steps) && i <= j < |ss|
    requires ss[i].running
    requires forall k :: i <= k < j ==> steps[k] != Run(Main) && ss[k + 1].events == ss[k].events
    ensures ss[j].running
    ensures Work(ss[j]) + (j - i) <= Work(ss[i]) + 5 * Wakes(steps[i..j])
  {
    hide Inv, Enabled, Take, Work;
    if i < j {
      WorkAlongPath(ss, steps, i, j - 1);
      InvHolds(ss, steps, j - 1);
      assert ss[j - 1 + 1] == Take(ss[j - 1], steps[j - 1]);
      WorkDecreases(ss[j - 1], steps[j - 1]);
      assert steps[i..j][..j - 1 - i] == steps[i..j - 1];
    } else {
      assert steps[i..j] == [];
    }
  }

  lemma MainLeavesEvents(s: State)
    ensures MainStep(s).events == s.events
  {
  }

  lemma ProducerAddsOne(s: State)
    ensures ProducerStep(s).events == s.events || ProducerStep(s).events == s.events + [Send]
  {
  }

  lemma ConsumerAddsOne(s: State)
    ensures ConsumerStep(s).events == s.events || ConsumerStep(s).events == s.events + [Consume]
  {
  }

  lemma OneEventAtATime(s: State, step: Step)
    ensures Take(s, step).events == s.events || |Take(s, step).events| == |s.events| + 1
  {
    hide MainStep, ProducerStep, ConsumerStep;
    match step
    case Run(Main) => MainLeavesEvents(s);
    case Run(Producer) => ProducerAddsOne(s);
    case Run(Consumer) => ConsumerAddsOne(s);
    case _ =>
  }

  /** However producer and consumer are scheduled while main sleeps, 17 steps in a row without a spurious wakeup send
      or consume a message; each spurious wakeup can put that off by 5 steps at most. */
  lemma MessagesKeepFlowing(ss: seq<State>, steps: seq<Step>, i: nat, j: nat)
    requires Execution(ss, steps) && i <= j < |ss|
    requires ss[i].running
    requires forall k :: i <= k < j ==> steps[k] != Run(Main)
    requires j - i > 16 + 5 * Wakes(steps[i..j])
    ensures exists k :: i <= k < j && |ss[k + 1].events| == |ss[k].events| + 1
  {
    hide Inv, Enabled, Take, Work;
    InvHolds(ss, steps, i);
    WorkBound(ss[i]);
    if forall k :: i <= k < j ==> ss[k + 1].events == ss[k].events {
      WorkAlongPath(ss, steps, i, j);
      assert false;
    }
    var k :| i <= k < j && ss[k + 1].events != ss[k].events;
    OneEventAtATime(ss[k], steps[k]);
    assert ss[k + 1] == Take(ss[k], steps[k]);
  }

  // ---- Shutdown ----

  function MainRank(pc: MainPc): nat {
    match pc
    case BroadcastProd => 6
    case BroadcastCons => 5
    case UnlockStopped => 4
    case JoinProducer => 3
    case JoinConsumer => 2
    case ReadCount => 1
    case _ => 0
  }

  function ProducerRank(pc: ProdPc): nat {
    match pc
    case ProdHead => 1
    case ProdUnlock => 2
    case ProdCheck => 3
    case ProdTestRunning => 4
    case ProdTestReady => 5
    case ProdLock | ProdWaiting => 6
    case _ => 0
  }

  function ConsumerRank(pc: ConsPc): nat {
    match pc
    case ConsHead => 1
    case ConsUnlock => 2
    case ConsSignal => 3
    case ConsClear => 4
    case ConsTestRunning => 5
    case ConsTestReady => 6
    case ConsLock | ConsWaiting => 7
    case _ => 0
  }

  function Rank(s: State): (r: nat)
    ensures r <= 21
  {
    MainRank(s.mainPc) + ProducerRank(s.prodPc) + ConsumerRank(s.consPc)
      + (if s.prodWaits then 1 else 0) + (if s.consWaits then 1 else 0)
  }

  ghost predicate Descends(s: State, s': State) {
    && !s'.running
    && Rank(s') < Rank(s)
    && (s'.prodWaits ==> s.prodWaits)
    && (s'.consWaits ==> s.consWaits)
  }

  lemma MainDescends(s: State)
    requires Lifecycle(s) && !s.running && MainEnabled(s)
    ensures Descends(s, MainStep(s))
  {
    hide ProducerRank, ConsumerRank;
    var s' := MainStep(s);
    assert s'.prodPc == s.prodPc && s'.consPc == s.consPc && s'.running == s.running;
    assert MainRank(s'.mainPc) < MainRank(s.mainPc);
  }

  lemma ProducerDescends(s: State)
    requires ReadsHold(s) && !s.running && ProducerEnabled(s)
    ensures Descends(s, ProducerStep(s))
  {
    hide MainRank, ConsumerRank;
    var s' := ProducerStep(s);
    assert s'.mainPc == s.mainPc && s'.consPc == s.consPc && s'.running == s.running;
    assert ProducerRank(s'.prodPc) < ProducerRank(s.prodPc);
  }

  lemma ConsumerDescends(s: State)
    requires ReadsHold(s) && !s.running && ConsumerEnabled(s)
    ensures Descends(s, ConsumerStep(s))
  {
    hide MainRank, ProducerRank;
    var s' := ConsumerStep(s);
    assert s'.mainPc == s.mainPc && s'.prodPc == s.prodPc && s'.running == s.running;
    assert ConsumerRank(s'.consPc) < ConsumerRank(s.consPc);
  }

  /** After the stop every step, a spurious wakeup included, brings the end closer and puts no thread into a wait
      set. */
  lemma StopDescends(s: State, step: Step)
    requires Inv(s) && !s.running && Enabled(s, step)
    ensures Descends(s, Take(s, step))
  {
    match step
    case Run(Main) => MainDescends(s);
    case Run(Producer) => ProducerDescends(s);
    case Run(Consumer) => ConsumerDescends(s);
    case WakeProducer =>
    case WakeConsumer =>
  }

  ghost predicate SameCount(s: State, s': State) {
    s'.msgsSent == s.msgsSent && Sends(s'.events) == Sends(s.events)
  }

  lemma ProducerFreezes(s: State)
    requires ReadsHold(s) && !s.running
    ensures SameCount(s, ProducerStep(s))
  {
  }

  lemma ConsumerFreezes(s: State)
    ensures SameCount(s, ConsumerStep(s))
  {
    hide Sends, Consumptions;
    EventAppended(s.events, Consume);
  }

  /** After the stop no step sends a message or changes the count. */
  lemma StopFreezes(s: State, step: Step)
    requires Inv(s) && !s.running
    ensures SameCount(s, Take(s, step))
  {
    ProducerFreezes(s);
    ConsumerFreezes(s);
    hide Inv, Sends, ProducerStep, ConsumerStep;
  }

  lemma {:induction false} StopAlongPath(ss: seq<State>, steps: seq<Step>, i: nat, j: nat)
    requires Execution(ss, steps) && i <= j < |ss|
    requires !ss[i].running
    ensures !ss[j].running
    ensures Rank(ss[j]) + (j - i) <= Rank(ss[i])
    ensures ss[j].msgsSent == ss[i].msgsSent
    ensures Sends(ss[j].events) == Sends(ss[i].events)
    ensures ss[j].prodWaits ==> ss[i].prodWaits
    ensures ss[j].consWaits ==> ss[i].consWaits
  {
    hide Inv, Enabled, Take, Rank, Sends;
    if i < j {
      StopAlongPath(ss, steps, i, j - 1);
      InvHolds(ss, steps, j - 1);
      assert ss[j - 1 + 1] == Take(ss[j - 1], steps[j - 1]);
      StopDescends(ss[j - 1], steps[j - 1]);
      StopFreezes(ss[j - 1], steps[j - 1]);
    }
  }

  /** Once main has cleared `running`, whatever the schedule: at most 21 more steps happen, no message is sent, and a
      run that cannot be continued has finished with main returning the count as it was at the clearing step. */
  lemma ShutdownTerminates(ss: seq<State>, steps: seq<Step>, i: nat, j: nat)
    requires Execution(ss, steps) && i <= j < |ss|
    requires !ss[i].running
    ensures j - i <= 21
    ensures Sends(ss[j].events) == Sends(ss[i].events)
    ensures Finished(ss[j]) ==> ss[j].result == ss[i].msgsSent
    ensures Finished(ss[j]) <==> forall step: Step :: !Enabled(ss[j], step)
  {
    StopAlongPath(ss, steps, i, j);
    NoDeadlock(ss, steps, j);
    InvHolds(ss, steps, j);
    assert (forall step: Step :: !Enabled(ss[j], step)) ==> forall t: Thread :: !Enabled(ss[j], Run(t));
  }

  /** Nobody is in a wait set once main has released the mutex after its broadcasts. */
  lemma NobodyWaitsAfterBroadcasts(ss: seq<State>, steps: seq<Step>, i: nat)
    requires Execution(ss, steps) && i < |ss|
    requires !ss[i].running && ss[i].mainPc != BroadcastProd && ss[i].mainPc != BroadcastCons
    ensures !ss[i].prodWaits && !ss[i].consWaits
  {
    InvHolds(ss, steps, i);
  }

  /** The stop is reachable, here without any worker having moved. */
  lemma StopIsReachable() returns (ss: seq<State>, steps: seq<Step>)
    ensures Execution(ss, steps) && !ss[|steps|].running && ss[|steps| - 1].running
  {
    var s1 := MainStep(INITIAL);
    var s2 := MainStep(s1);
    var s3 := MainStep(s2);
    ss := [INITIAL, s1, s2, s3, MainStep(s3)];
    steps := [Run(Main), Run(Main), Run(Main), Run(Main)];
  }

  /** The run finishes: from any reachable state in which `running` is cleared the steps can be continued to the end. */
  lemma {:induction false} ShutdownCompletes(ss: seq<State>, steps: seq<Step>)
    returns (more: seq<State>, rest: seq<Step>)
    requires Execution(ss, steps) && !ss[|steps|].running
    ensures Execution(ss + more, steps + rest)
    ensures Finished((ss + more)[|steps + rest|])
    ensures (ss + more)[|steps + rest|].result == ss[|steps|].msgsSent
    ensures |rest| <= 21
    decreases Rank(ss[|steps|])
  {
    hide Inv, Enabled, Take, Rank;
    var s := ss[|steps|];
    NoDeadlock(ss, steps, |steps|);
    if Finished(s) {
      ShutdownTerminates(ss, steps, |steps|, |steps|);
      more, rest := [], [];
      assert ss + more == ss && steps + rest == steps;
    } else {
      var t :| Enabled(s, Run(t));
      InvHolds(ss, steps, |steps|);
      StopDescends(s, Run(t));
      var ss', steps' := ss + [Take(s, Run(t))], steps + [Run(t)];
      assert Execution(ss', steps');
      var more', rest' := ShutdownCompletes(ss', steps');
      more, rest := [Take(s, Run(t))] + more', [Run(t)] + rest';
      assert ss + more == ss' + more' && steps + rest == steps' + rest';
      ShutdownTerminates(ss + more, steps + rest, |steps|, |steps + rest|);
    }
  }

  // ---- The runs there are ----

  function Last(ss: seq<State>): State
    requires ss != []
  {
    ss[|ss| - 1]
  }

  lemma Extend(ss: seq<State>, steps: seq<Step>, step: Step) returns (ss': seq<State>, steps': seq<Step>)
    requires ss != [] && Execution(ss, steps) && Enabled(Last(ss), step)
    ensures ss' != [] && Execution(ss', steps') && Last(ss') == Take(Last(ss), step)
  {
    hide Enabled, Take;
    ss', steps' := ss + [Take(Last(ss), step)], steps + [step];
  }

  /** Both threads stand at the head of their loops while main sleeps, and `m` messages have been sent and consumed. */
  ghost predicate BetweenMessages(s: State, m: nat) {
    && s.owner == Free && s.mainPc == LockToStop && s.prodPc == ProdHead && s.consPc == ConsHead
    && s.running && !s.msgReady && !s.prodWaits && !s.consWaits
    && Sends(s.events) == m && Consumptions(s.events) == m
  }

  lemma Begin() returns (ss: seq<State>, steps: seq<Step>)
    ensures ss != [] && Execution(ss, steps) && BetweenMessages(Last(ss), 0)
  {
    ss, steps := Extend([INITIAL], [], Run(Main));
    ss, steps := Extend(ss, steps, Run(Main));
  }

  /** The consumer finds nothing and goes to wait. */
  lemma ConsumerGoesToWait(ss: seq<State>, steps: seq<Step>) returns (ss': seq<State>, steps': seq<Step>)
    requires ss != [] && Execution(ss, steps) && Last(ss).owner == Free && Last(ss).running && !Last(ss).msgReady
    requires Last(ss).consPc == ConsHead
    ensures ss' != [] && Execution(ss', steps')
    ensures Last(ss') == Last(ss).(consPc := ConsWaiting, consWaits := true)
  {
    hide Execution, MainStep, ProducerStep;
    ss', steps' := ss, steps;
    ss', steps' := Extend(ss', steps', Run(Consumer));
    ss', steps' := Extend(ss', steps', Run(Consumer));
    ss', steps' := Extend(ss', steps', Run(Consumer));
    ss', steps' := Extend(ss', steps', Run(Consumer));
    ss', steps' := Extend(ss', steps', Run(Consumer));
  }

  lemma ProducerLocks(ss: seq<State>, steps: seq<Step>) returns (ss': seq<State>, steps': seq<Step>)
    requires ss != [] && Execution(ss, steps) && Last(ss).owner == Free && Last(ss).running && !Last(ss).msgReady
    requires Last(ss).prodPc == ProdHead
    ensures ss' != [] && Execution(ss', steps')
    ensures Last(ss') == Last(ss).(prodPc := ProdSetReady, owner := HeldBy(Producer))
  {
    hide Execution, Uint64, MainStep, ConsumerStep;
    ss', steps' := ss, steps;
    ss', steps' := Extend(ss', steps', Run(Producer));
    ss', steps' := Extend(ss', steps', Run(Producer));
    ss', steps' := Extend(ss', steps', Run(Producer));
    ss', steps' := Extend(ss', steps', Run(Producer));
  }

  /** The producer sends a message and wakes the consumer. */
  lemma ProducerSends(ss: seq<State>, steps: seq<Step>) returns (ss': seq<State>, steps': seq<Step>)
    requires ss != [] && Execution(ss, steps) && Last(ss).owner == Free && Last(ss).running && !Last(ss).msgReady
    requires Last(ss).prodPc == ProdHead
    ensures ss' != [] && Execution(ss', steps')
    ensures Last(ss') == Last(ss).(msgReady := true, consWaits := false, msgsSent := Uint64(Last(ss).msgsSent + 1),
                                   events := Last(ss).events + [Send])
  {
    hide Execution, Uint64, MainStep, ConsumerStep;
    ss', steps' := ProducerLocks(ss, steps);
    ss', steps' := Extend(ss', steps', Run(Producer));
    ss', steps' := Extend(ss', steps', Run(Producer));
    ss', steps' := Extend(ss', steps', Run(Producer));
    ss', steps' := Extend(ss', steps', Run(Producer));
  }

  /** The consumer wakes up and takes the message. */
  lemma ConsumerTakes(ss: seq<State>, steps: seq<Step>) returns (ss': seq<State>, steps': seq<Step>)
    requires ss != [] && Execution(ss, steps) && Last(ss).owner == Free && Last(ss).msgReady
    requires Last(ss).consPc == ConsWaiting && !Last(ss).consWaits
    ensures ss' != [] && Execution(ss', steps')
    ensures Last(ss') == Last(ss).(msgReady := false, prodWaits := false, consPc := ConsHead,
                                   events := Last(ss).events + [Consume])
  {
    hide Execution, MainStep, ProducerStep;
    ss', steps' := ss, steps;
    ss', steps' := Extend(ss', steps', Run(Consumer));
    ss', steps' := Extend(ss', steps', Run(Consumer));
    ss', steps' := Extend(ss', steps', Run(Consumer));
    ss', steps' := Extend(ss', steps', Run(Consumer));
    ss', steps' := Extend(ss', steps', Run(Consumer));
  }

  /** A message through a wait and a wakeup. */
  lemma OneMessage(ss: seq<State>, steps: seq<Step>, m: nat) returns (ss': seq<State>, steps': seq<Step>)
    requires ss != [] && Execution(ss, steps) && BetweenMessages(Last(ss), m)
    ensures ss' != [] && Execution(ss', steps') && BetweenMessages(Last(ss'), m + 1)
  {
    hide Execution, Sends, Consumptions, Uint64;
    EventAppended(Last(ss).events, Send);
    EventAppended(Last(ss).events + [Send], Consume);
    ss', steps' := ConsumerGoesToWait(ss, steps);
    ss', steps' := ProducerSends(ss', steps');
    ss', steps' := ConsumerTakes(ss', steps');
  }

  /** Every number of messages is that of some complete run, in which main returns it. */
  lemma EveryCountReached(m: nat) returns (ss: seq<State>, steps: seq<Step>)
    ensures ss != [] && Execution(ss, steps) && Finished(Last(ss))
    ensures Last(ss).result == m % 0x1_0000_0000_0000_0000
  {
    hide Execution, BetweenMessages;
    ss, steps := Begin();
    for k := 0 to m
      invariant ss != [] && Execution(ss, steps) && BetweenMessages(Last(ss), k)
    {
      ss, steps := OneMessage(ss, steps, k);
    }
    ss, steps := StopThere(ss, steps, m);
  }

  lemma StopThere(ss: seq<State>, steps: seq<Step>, m: nat) returns (ss': seq<State>, steps': seq<Step>)
    requires ss != [] && Execution(ss, steps) && BetweenMessages(Last(ss), m)
    ensures ss' != [] && Execution(ss', steps') && Finished(Last(ss')) && Last(ss').result == Uint64(m)
  {
    hide Inv, Finished;
    Conservation(ss, steps, |ss| - 1);
    ss', steps' := Extend(ss, steps, Run(Main));
    ss', steps' := Extend(ss', steps', Run(Main));
    assert !Last(ss').running && Last(ss').msgsSent == Uint64(m);
    var more, rest := ShutdownCompletes(ss', steps');
    ss', steps' := ss' + more, steps' + rest;
  }
}
