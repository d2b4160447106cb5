/** The condition-variable producer/consumer of benchmark/src/thread_bench.c, as an interleaving of the atomic steps of
    main, producer and consumer.

    The mutex is an owner.  Each condition variable is waited on by one thread only, so its wait set is a flag.
    `pthread_cond_wait` releases the mutex and enters the wait set in one step; a thread leaves the wait set by a
    signal, a broadcast or spuriously, as IEEE Std 1003.1-2017, System Interfaces, `pthread_cond_wait()` allows, and
    must then lock the mutex again.  The reads of `running` that head the two thread loops happen without the mutex.
 */
module CondVar {
  import opened Modular

  datatype Thread = Main | Producer | Consumer

  datatype Owner = Free | HeldBy(thread: Thread)

  datatype MainPc =
    | CreateProducer | CreateConsumer
    | LockToStop | ClearRunning | BroadcastProd | BroadcastCons | UnlockStopped
    | JoinProducer | JoinConsumer | ReadCount | MainDone

  datatype ProdPc =
    | ProdNew | ProdHead | ProdLock | ProdTestReady | ProdTestRunning | ProdWait | ProdWaiting
    | ProdCheck | ProdSetReady | ProdCount | ProdSignal | ProdUnlock | ProdDone

  datatype ConsPc =
    | ConsNew | ConsHead | ConsLock | ConsTestReady | ConsTestRunning | ConsWait | ConsWaiting
    | ConsClear | ConsSignal | ConsUnlock | ConsDone

  /** `msg_ready` going from 0 to 1, and from 1 to 0. */
  datatype Event = Send | Consume

  datatype State = State(
    owner: Owner,
    prodWaits: bool,      // the producer is in the wait set of cond_prod
    consWaits: bool,      // the consumer is in the wait set of cond_cons
    msgReady: bool,
    msgsSent: nat,        // a uint64_t
    running: bool,
    mainPc: MainPc,
    prodPc: ProdPc,
    consPc: ConsPc,
    result: nat,          // what main reads from msgs_sent in the end
    events: seq<Event>)   // history

  const INITIAL := State(Free, false, false, false, 0, true, CreateProducer, ProdNew, ConsNew, 0, [])

  /** A step is a step of a thread, or a wait that ends for no reason. */
  datatype Step = Run(thread: Thread) | WakeProducer | WakeConsumer

  predicate MainEnabled(s: State) {
    match s.mainPc
    case LockToStop => s.owner == Free
    case JoinProducer => s.prodPc == ProdDone
    case JoinConsumer => s.consPc == ConsDone
    case MainDone => false
    case _ => true
  }

  predicate ProducerEnabled(s: State) {
    match s.prodPc
    case ProdNew | ProdDone => false
    case ProdLock => s.owner == Free
    case ProdWaiting => !s.prodWaits && s.owner == Free
    case _ => true
  }

  predicate ConsumerEnabled(s: State) {
    match s.consPc
    case ConsNew | ConsDone => false
    case ConsLock => s.owner == Free
    case ConsWaiting => !s.consWaits && s.owner == Free
    case _ => true
  }

  predicate Enabled(s: State, step: Step) {
    match step
    case Run(Main) => MainEnabled(s)
    case Run(Producer) => ProducerEnabled(s)
    case Run(Consumer) => ConsumerEnabled(s)
    case WakeProducer => s.prodWaits
    case WakeConsumer => s.consWaits
  }

  function MainStep(s: State): State {
    match s.mainPc
    case CreateProducer => s.(mainPc := CreateConsumer, prodPc := ProdHead)
    case CreateConsumer => s.(mainPc := LockToStop, consPc := ConsHead)
    case LockToStop => s.(mainPc := ClearRunning, owner := HeldBy(Main))
    case ClearRunning => s.(mainPc := BroadcastProd, running := false)
    case BroadcastProd => s.(mainPc := BroadcastCons, prodWaits := false)
    case BroadcastCons => s.(mainPc := UnlockStopped, consWaits := false)
    case UnlockStopped => s.(mainPc := JoinProducer, owner := Free)
    case JoinProducer => s.(mainPc := JoinConsumer)
    case JoinConsumer => s.(mainPc := ReadCount)
    case ReadCount => s.(mainPc := MainDone, result := s.msgsSent)
    case MainDone => s
  }

  function ProducerStep(s: State): State {
    match s.prodPc
    case ProdHead => s.(prodPc := if s.running then ProdLock else ProdDone)
    case ProdLock => s.(prodPc := ProdTestReady, owner := HeldBy(Producer))
    case ProdTestReady => s.(prodPc := if s.msgReady then ProdTestRunning else ProdCheck)
    case ProdTestRunning => s.(prodPc := if s.running then ProdWait else ProdCheck)
    case ProdWait => s.(prodPc := ProdWaiting, owner := Free, prodWaits := true)
    case ProdWaiting => s.(prodPc := ProdTestReady, owner := HeldBy(Producer))
    case ProdCheck => s.(prodPc := if s.running then ProdSetReady else ProdUnlock)
    case ProdSetReady =>
      s.(prodPc := ProdCount, msgReady := true, events := if s.msgReady then s.events else s.events + [Send])
    case ProdCount => s.(prodPc := ProdSignal, msgsSent := Uint64(s.msgsSent + 1))
    case ProdSignal => s.(prodPc := ProdUnlock, consWaits := false)
    case ProdUnlock => s.(prodPc := ProdHead, owner := Free)
    case ProdNew | ProdDone => s
  }

  function ConsumerStep(s: State): State {
    match s.consPc
    case ConsHead => s.(consPc := if s.running then ConsLock else ConsDone)
    case ConsLock => s.(consPc := ConsTestReady, owner := HeldBy(Consumer))
    case ConsTestReady => s.(consPc := if !s.msgReady then ConsTestRunning else ConsClear)
    case ConsTestRunning => s.(consPc := if s.running then ConsWait else ConsClear)
    case ConsWait => s.(consPc := ConsWaiting, owner := Free, consWaits := true)
    case ConsWaiting => s.(consPc := ConsTestReady, owner := HeldBy(Consumer))
    case ConsClear =>
      s.(consPc := ConsSignal, msgReady := false, events := if s.msgReady then s.events + [Consume] else s.events)
    case ConsSignal => s.(consPc := ConsUnlock, prodWaits := false)
    case ConsUnlock => s.(consPc := ConsHead, owner := Free)
    case ConsNew | ConsDone => s
  }

  function Take(s: State, step: Step): State {
    match step
    case Run(Main) => MainStep(s)
    case Run(Producer) => ProducerStep(s)
    case Run(Consumer) => ConsumerStep(s)
    case WakeProducer => s.(prodWaits := false)
    case WakeConsumer => s.(consWaits := false)
  }

  // ---- Executions ----

  /** `ss` are the states of a run that starts at its first state and takes the given steps. */
  ghost predicate Path(ss: seq<State>, steps: seq<Step>) {
    && |ss| == |steps| + 1
    && forall i :: 0 <= i < |steps| ==> Enabled(ss[i], steps[i]) && ss[i + 1] == Take(ss[i], steps[i])
  }

  ghost predicate Execution(ss: seq<State>, steps: seq<Step>) {
    Path(ss, steps) && ss[0] == INITIAL
  }

  // ---- The invariant ----

  predicate InMain(pc: MainPc) {
    pc.ClearRunning? || pc.BroadcastProd? || pc.BroadcastCons? || pc.UnlockStopped?
  }

  predicate InProducer(pc: ProdPc) {
    !(pc.ProdNew? || pc.ProdHead? || pc.ProdLock? || pc.ProdWaiting? || pc.ProdDone?)
  }

  predicate InConsumer(pc: ConsPc) {
    !(pc.ConsNew? || pc.ConsHead? || pc.ConsLock? || pc.ConsWaiting? || pc.ConsDone?)
  }

  /** Whoever is between lock and unlock holds the mutex, and nobody else does. */
  predicate MutexHeld(s: State) {
    && (s.owner == HeldBy(Main) <==> InMain(s.mainPc))
    && (s.owner == HeldBy(Producer) <==> InProducer(s.prodPc))
    && (s.owner == HeldBy(Consumer) <==> InConsumer(s.consPc))
  }

  predicate BeforeStop(pc: MainPc) {
    pc.CreateProducer? || pc.CreateConsumer? || pc.LockToStop? || pc.ClearRunning?
  }

  /** A thread in a wait set has a reason to wait, or the wakeup for it is the next thing to happen under the mutex. */
  predicate WaitersAreOwed(s: State) {
    && (s.prodWaits ==>
          && s.prodPc == ProdWaiting
          && (s.msgReady || s.consPc == ConsSignal)
          && (s.running || s.mainPc == BroadcastProd))
    && (s.consWaits ==>
          && s.consPc == ConsWaiting
          && (!s.msgReady || s.prodPc == ProdCount || s.prodPc == ProdSignal)
          && (s.running || s.mainPc == BroadcastProd || s.mainPc == BroadcastCons))
  }

  /** What a thread has read under the mutex still holds. */
  predicate ReadsHold(s: State) {
    && (s.prodPc == ProdTestRunning ==> s.msgReady)
    && (s.prodPc == ProdWait ==> s.msgReady && s.running)
    && (s.prodPc == ProdCheck ==> s.msgReady ==> !s.running)
    && (s.prodPc == ProdSetReady ==> !s.msgReady && s.running)
    && (s.prodPc == ProdCount || s.prodPc == ProdSignal ==> s.msgReady && s.running)
    && (s.prodPc == ProdUnlock && s.running ==> s.msgReady)
    && (s.consPc == ConsTestRunning ==> !s.msgReady)
    && (s.consPc == ConsWait ==> !s.msgReady && s.running)
    && (s.consPc == ConsClear ==> !s.msgReady ==> !s.running)
    && (s.consPc == ConsSignal || s.consPc == ConsUnlock ==> !s.msgReady)
  }

  predicate Lifecycle(s: State) {
    && (s.running <==> BeforeStop(s.mainPc))
    && (s.prodPc == ProdNew <==> s.mainPc == CreateProducer)
    && (s.consPc == ConsNew <==> s.mainPc == CreateProducer || s.mainPc == CreateConsumer)
    && (s.prodPc == ProdDone ==> !s.running)
    && (s.consPc == ConsDone ==> !s.running)
    && (s.mainPc == JoinConsumer || s.mainPc == ReadCount || s.mainPc == MainDone ==> s.prodPc == ProdDone)
    && (s.mainPc == ReadCount || s.mainPc == MainDone ==> s.consPc == ConsDone)
    && (s.mainPc == MainDone ==> s.result == s.msgsSent)
  }

  function Sends(events: seq<Event>): nat {
    if events == [] then 0 else Sends(events[..|events| - 1]) + (if events[|events| - 1] == Send then 1 else 0)
  }

  function Consumptions(events: seq<Event>): nat {
    if events == [] then 0
    else Consumptions(events[..|events| - 1]) + (if events[|events| - 1] == Consume then 1 else 0)
  }

  predicate Alternating(events: seq<Event>) {
    forall i :: 0 <= i < |events| ==> (events[i] == Send <==> i % 2 == 0)
  }

  /** The message is pending exactly when the last event was a send. */
  predicate Pending(s: State) {
    Alternating(s.events) && (s.msgReady <==> |s.events| % 2 == 1)
  }

  /** The count is that of the sends; between the two writes of the producer it lags behind. */
  predicate Counted(s: State) {
    s.msgsSent == Uint64(Sends(s.events) - (if s.prodPc == ProdCount then 1 else 0))
  }

  predicate Accounts(s: State) {
    Pending(s) && Counted(s)
  }

  predicate Control(s: State) {
    MutexHeld(s) && WaitersAreOwed(s) && ReadsHold(s) && Lifecycle(s)
  }

  predicate Inv(s: State) {
    Control(s) && Accounts(s)
  }

  lemma EventAppended(events: seq<Event>, e: Event)
    ensures Sends(events + [e]) == Sends(events) + (if e == Send then 1 else 0)
    ensures Consumptions(events + [e]) == Consumptions(events) + (if e == Consume then 1 else 0)
  {
    assert (events + [e])[..|events|] == events;
  }

  lemma MainKeepsControl(s: State)
    requires Control(s) && MainEnabled(s)
    ensures Control(MainStep(s))
  {
    var s' := MainStep(s);
    assert s'.msgReady == s.msgReady;
  }

  lemma ProducerKeepsControl(s: State)
    requires Control(s) && ProducerEnabled(s)
    ensures Control(ProducerStep(s))
  {
    var s' := ProducerStep(s);
    assert s'.mainPc == s.mainPc && s'.consPc == s.consPc && s'.running == s.running;
  }

  lemma ProducerKeepsPending(s: State)
    requires Pending(s)
    ensures Pending(ProducerStep(s))
  {
  }

  lemma ProducerKeepsCounted(s: State)
    requires ReadsHold(s) && Counted(s)
    ensures Counted(ProducerStep(s))
  {
    hide Sends, Consumptions, Uint64;
    EventAppended(s.events, Send);
    Uint64Sum(Sends(s.events) - 1, 1);
    if s.prodPc != ProdSetReady {
      assert ProducerStep(s).events == s.events;
    }
  }

  lemma ConsumerKeepsControl(s: State)
    requires Control(s) && ConsumerEnabled(s)
    ensures Control(ConsumerStep(s))
  {
    var s' := ConsumerStep(s);
    assert s'.mainPc == s.mainPc && s'.prodPc == s.prodPc && s'.running == s.running;
  }

  lemma ConsumerKeepsCounted(s: State)
    requires Counted(s)
    ensures Counted(ConsumerStep(s))
  {
    hide Sends, Consumptions, Uint64;
    EventAppended(s.events, Consume);
    assert ConsumerStep(s).msgsSent == s.msgsSent && ConsumerStep(s).prodPc == s.prodPc;
    assert Sends(ConsumerStep(s).events) == Sends(s.events);
  }

  lemma ConsumerKeepsPending(s: State)
    requires Pending(s)
    ensures Pending(ConsumerStep(s))
  {
  }

  lemma MainKeepsAccounts(s: State)
    requires Accounts(s) && Lifecycle(s)
    ensures Accounts(MainStep(s))
  {
    hide Sends, Alternating, Uint64;
    var s' := MainStep(s);
    assert s'.events == s.events && s'.msgReady == s.msgReady && s'.msgsSent == s.msgsSent;
    assert s'.prodPc == s.prodPc || (s.prodPc == ProdNew && s'.prodPc == ProdHead);
  }

  lemma WakeKeepsInv(s: State)
    requires Inv(s)
    ensures Inv(s.(prodWaits := false)) && Inv(s.(consWaits := false))
  {
    hide Sends, Alternating, Uint64;
  }

  lemma StepKeepsInv(s: State, step: Step)
    requires Inv(s) && Enabled(s, step)
    ensures Inv(Take(s, step))
  {
    WakeKeepsInv(s);
    assert Lifecycle(s) && ReadsHold(s);
    hide MutexHeld, WaitersAreOwed, ReadsHold, Lifecycle, Pending, Counted, MainStep, ProducerStep, ConsumerStep;
    match step
    case Run(Main) => MainKeepsControl(s); MainKeepsAccounts(s);
    case Run(Producer) => ProducerKeepsControl(s); ProducerKeepsPending(s); ProducerKeepsCounted(s);
    case Run(Consumer) => ConsumerKeepsControl(s); ConsumerKeepsPending(s); ConsumerKeepsCounted(s);
    case WakeProducer =>
    case WakeConsumer =>
  }

  lemma {:induction false} InvHolds(ss: seq<State>, steps: seq<Step>, i: nat)
    requires Execution(ss, steps) && i < |ss|
    ensures Inv(ss[i])
  {
    if i > 0 {
      InvHolds(ss, steps, i - 1);
      StepKeepsInv(ss[i - 1], steps[i - 1]);
    }
  }
}
