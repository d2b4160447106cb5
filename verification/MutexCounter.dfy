/** The mutex contention benchmark of benchmark/src/thread_bench.c for any number of threads, as an interleaving of
    atomic steps.  `(*ma->counter)++` is a load into a register and a later store; the `running` flags are read and
    cleared without the lock. */
module MutexCounter {
  import opened Modular

  datatype Owner = Free | HeldBy(thread: nat)

  datatype Pc = New | Head | Lock | Load | Store | Unlock | Done

  /** Main creates the threads, clears their flags and joins them, each in order. */
  datatype MainPc = Create(i: nat) | Clear(i: nat) | Join(i: nat) | Returned(count: nat)

  datatype Worker = Worker(pc: Pc, running: bool, register: nat, iterations: nat)

  datatype State = State(owner: Owner, counter: nat, workers: seq<Worker>, main: MainPc)

  ghost predicate Initial(s: State) {
    && s.owner == Free && s.counter == 0 && s.main == Create(0)
    && forall i :: 0 <= i < |s.workers| ==> s.workers[i] == Worker(New, false, 0, 0)
  }

  predicate MainEnabled(s: State) {
    match s.main
    case Join(i) => i < |s.workers| ==> s.workers[i].pc == Done
    case Returned(_) => false
    case _ => true
  }

  function MainStep(s: State): State
    requires MainEnabled(s)
  {
    var n := |s.workers|;
    match s.main
    case Create(i) =>
      if i < n then s.(main := Create(i + 1), workers := s.workers[i := s.workers[i].(pc := Head, running := true)])
      else s.(main := Clear(0))
    case Clear(i) =>
      if i < n then s.(main := Clear(i + 1), workers := s.workers[i := s.workers[i].(running := false)])
      else s.(main := Join(0))
    case Join(i) =>
      if i < n then s.(main := Join(i + 1)) else s.(main := Returned(s.counter))
  }

  predicate WorkerEnabled(s: State, t: nat) {
    && t < |s.workers|
    && s.workers[t].pc != New && s.workers[t].pc != Done
    && (s.workers[t].pc == Lock ==> s.owner == Free)
  }

  function WorkerStep(s: State, t: nat): State
    requires WorkerEnabled(s, t)
  {
    var w := s.workers[t];
    match w.pc
    case Head => s.(workers := s.workers[t := w.(pc := if w.running then Lock else Done)])
    case Lock => s.(workers := s.workers[t := w.(pc := Load)], owner := HeldBy(t))
    case Load => s.(workers := s.workers[t := w.(pc := Store, register := s.counter)])
    case Store =>
      s.(workers := s.workers[t := w.(pc := Unlock, iterations := w.iterations + 1)],
         counter := Uint64(w.register + 1))
    case Unlock => s.(workers := s.workers[t := w.(pc := Head)], owner := Free)
    case _ => s
  }

  datatype Step = MainRuns | WorkerRuns(t: nat)

  predicate Enabled(s: State, step: Step) {
    match step
    case MainRuns => MainEnabled(s)
    case WorkerRuns(t) => WorkerEnabled(s, t)
  }

  function Take(s: State, step: Step): State
    requires Enabled(s, step)
  {
    match step
    case MainRuns => MainStep(s)
    case WorkerRuns(t) => WorkerStep(s, t)
  }

  ghost predicate Execution(ss: seq<State>, steps: seq<Step>) {
    && |ss| == |steps| + 1
    && Initial(ss[0])
    && forall i :: 0 <= i < |steps| ==> Enabled(ss[i], steps[i]) && ss[i + 1] == Take(ss[i], steps[i])
  }

  // ---- The invariant ----

  predicate Inside(pc: Pc) {
    pc.Load? || pc.Store? || pc.Unlock?
  }

  ghost predicate MutexHeld(s: State) {
    && (s.owner.HeldBy? ==> s.owner.thread < |s.workers|)
    && forall t :: 0 <= t < |s.workers| ==> (Inside(s.workers[t].pc) <==> s.owner == HeldBy(t))
  }

  /** A value loaded under the lock is still the value of the counter. */
  ghost predicate RegistersFresh(s: State) {
    forall t :: 0 <= t < |s.workers| && s.workers[t].pc == Store ==> s.workers[t].register == s.counter
  }

  ghost predicate Lifecycle(s: State) {
    && (s.main.Create? || s.main.Clear? || s.main.Join? ==> s.main.i <= |s.workers|)
    && forall t :: 0 <= t < |s.workers| ==>
         var w := s.workers[t];
         && (w.pc == New <==> s.main.Create? && s.main.i <= t)
         && (w.running <==> (s.main.Create? && t < s.main.i) || (s.main.Clear? && s.main.i <= t))
         && (w.pc == Done ==> !w.running)
         && ((s.main.Join? && t < s.main.i) || s.main.Returned? ==> w.pc == Done)
  }

  function Iterations(ws: seq<Worker>): nat {
    if ws == [] then 0 else Iterations(ws[..|ws| - 1]) + ws[|ws| - 1].iterations
  }

  /** No increment is lost. */
  predicate Counted(s: State) {
    && s.counter == Uint64(Iterations(s.workers))
    && (s.main.Returned? ==> s.main.count == s.counter)
  }

  ghost predicate Inv(s: State) {
    MutexHeld(s) && RegistersFresh(s) && Lifecycle(s) && Counted(s)
  }

  lemma {:induction false} IterationsUpdate(ws: seq<Worker>, t: nat, w: Worker)
    requires t < |ws|
    ensures Iterations(ws[t := w]) == Iterations(ws) - ws[t].iterations + w.iterations
  {
    var last := |ws| - 1;
    if t == last {
      assert ws[t := w][..last] == ws[..last];
    } else {
      assert ws[t := w][..last] == ws[..last][t := w];
      IterationsUpdate(ws[..last], t, w);
    }
  }

  lemma {:induction false} NoIterationsYet(ws: seq<Worker>)
    requires forall i :: 0 <= i < |ws| ==> ws[i].iterations == 0
    ensures Iterations(ws) == 0
  {
    if ws != [] {
      NoIterationsYet(ws[..|ws| - 1]);
    }
  }

  lemma MainKeepsInv(s: State)
    requires Inv(s) && MainEnabled(s)
    ensures Inv(MainStep(s))
  {
    if (s.main.Create? || s.main.Clear?) && s.main.i < |s.workers| {
      IterationsUpdate(s.workers, s.main.i, MainStep(s).workers[s.main.i]);
    }
  }

  lemma WorkerKeepsControl(s: State, t: nat)
    requires Inv(s) && WorkerEnabled(s, t)
    ensures var s' := WorkerStep(s, t); MutexHeld(s') && RegistersFresh(s') && Lifecycle(s')
  {
    hide Counted;
  }

  lemma WorkerKeepsCounted(s: State, t: nat)
    requires Inv(s) && WorkerEnabled(s, t)
    ensures Counted(WorkerStep(s, t))
  {
    hide MutexHeld, Uint64;
    Uint64Sum(Iterations(s.workers), 1);
    IterationsUpdate(s.workers, t, WorkerStep(s, t).workers[t]);
  }

  lemma {:induction false} InvHolds(ss: seq<State>, steps: seq<Step>, i: nat)
    requires Execution(ss, steps) && i < |ss|
    ensures Inv(ss[i])
    ensures |ss[i].workers| == |ss[0].workers|
  {
    if i == 0 {
      NoIterationsYet(ss[0].workers);
    } else {
      InvHolds(ss, steps, i - 1);
      match steps[i - 1]
      case MainRuns => MainKeepsInv(ss[i - 1]);
      case WorkerRuns(t) => WorkerKeepsControl(ss[i - 1], t); WorkerKeepsCounted(ss[i - 1], t);
    }
  }

  // ---- Whole runs ----

  /** At most one thread is between lock and unlock. */
  lemma MutualExclusion(ss: seq<State>, steps: seq<Step>, i: nat, t: nat, u: nat)
    requires Execution(ss, steps) && i < |ss|
    requires t < u < |ss[i].workers|
    ensures !(Inside(ss[i].workers[t].pc) && Inside(ss[i].workers[u].pc))
  {
    InvHolds(ss, steps, i);
  }

  /** In every reachable state the counter is the number of increments done, and that is what main returns when all
      threads have been joined. */
  lemma NoLostUpdates(ss: seq<State>, steps: seq<Step>, i: nat)
    requires Execution(ss, steps) && i < |ss|
    ensures ss[i].counter == Uint64(Iterations(ss[i].workers))
    ensures ss[i].main.Returned? ==>
      && ss[i].main.count == Uint64(Iterations(ss[i].workers))
      && forall t :: 0 <= t < |ss[i].workers| ==> ss[i].workers[t].pc == Done
  {
    InvHolds(ss, steps, i);
  }

  /** Until main has returned, main or some worker can go on. */
  lemma NoDeadlock(ss: seq<State>, steps: seq<Step>, i: nat)
    requires Execution(ss, steps) && i < |ss|
    ensures ss[i].main.Returned? <==> forall step: Step :: !Enabled(ss[i], step)
  {
    InvHolds(ss, steps, i);
    var s := ss[i];
    if s.main.Returned? {
      forall step: Step ensures !Enabled(s, step) {}
    } else if !MainEnabled(s) {
      var t := s.main.i;
      if WorkerEnabled(s, t) {
        assert Enabled(s, WorkerRuns(t));
      } else {
        assert Enabled(s, WorkerRuns(s.owner.thread));
      }
    } else {
      assert Enabled(s, MainRuns);
    }
  }

  // ---- Shutdown ----

  function PcRank(pc: Pc): nat {
    match pc
    case Lock => 5
    case Load => 4
    case Store => 3
    case Unlock => 2
    case Head => 1
    case _ => 0
  }

  function WorkersRank(ws: seq<Worker>): nat {
    if ws == [] then 0 else WorkersRank(ws[..|ws| - 1]) + PcRank(ws[|ws| - 1].pc)
  }

  /** Increments that a thread may still do after its flag is cleared. */
  function Pending(ws: seq<Worker>): nat {
    if ws == [] then 0
    else Pending(ws[..|ws| - 1]) + (if ws[|ws| - 1].pc in {Lock, Load, Store} then 1 else 0)
  }

  function Rank(s: State): nat
    requires s.main.Join? ==> s.main.i <= |s.workers|
  {
    WorkersRank(s.workers) + match s.main case Join(i) => |s.workers| - i + 1 case _ => 0
  }

  lemma {:induction false} RankUpdate(ws: seq<Worker>, t: nat, w: Worker)
    requires t < |ws|
    ensures WorkersRank(ws[t := w]) == WorkersRank(ws) - PcRank(ws[t].pc) + PcRank(w.pc)
    ensures Pending(ws[t := w]) == Pending(ws) - (if ws[t].pc in {Lock, Load, Store} then 1 else 0)
                                 + (if w.pc in {Lock, Load, Store} then 1 else 0)
  {
    var last := |ws| - 1;
    if t == last {
      assert ws[t := w][..last] == ws[..last];
    } else {
      assert ws[t := w][..last] == ws[..last][t := w];
      RankUpdate(ws[..last], t, w);
    }
  }

  lemma {:induction false} RankBounds(ws: seq<Worker>)
    ensures WorkersRank(ws) <= 5 * |ws| && Pending(ws) <= |ws|
  {
    if ws != [] {
      RankBounds(ws[..|ws| - 1]);
    }
  }

  predicate Stopped(s: State) {
    s.main.Join? || s.main.Returned?
  }

  lemma StopStep(s: State, step: Step)
    requires Inv(s) && Stopped(s) && Enabled(s, step)
    ensures var s' := Take(s, step);
      && Inv(s') && Stopped(s') && |s'.workers| == |s.workers|
      && Rank(s') < Rank(s)
      && Iterations(s'.workers) + Pending(s'.workers) == Iterations(s.workers) + Pending(s.workers)
  {
    match step
    case MainRuns => MainKeepsInv(s);
    case WorkerRuns(t) =>
      WorkerKeepsControl(s, t);
      WorkerKeepsCounted(s, t);
      IterationsUpdate(s.workers, t, WorkerStep(s, t).workers[t]);
      RankUpdate(s.workers, t, WorkerStep(s, t).workers[t]);
  }

  lemma {:induction false} StopAlongPath(ss: seq<State>, steps: seq<Step>, i: nat, j: nat)
    requires Execution(ss, steps) && i <= j < |ss|
    requires Stopped(ss[i])
    ensures Inv(ss[i]) && Inv(ss[j]) && Stopped(ss[j]) && |ss[j].workers| == |ss[i].workers|
    ensures Rank(ss[j]) + (j - i) <= Rank(ss[i])
    ensures Iterations(ss[j].workers) + Pending(ss[j].workers) == Iterations(ss[i].workers) + Pending(ss[i].workers)
  {
    hide Inv, Enabled, Take, Iterations, Pending;
    InvHolds(ss, steps, i);
    if i < j {
      StopAlongPath(ss, steps, i, j - 1);
      assert ss[j - 1 + 1] == Take(ss[j - 1], steps[j - 1]);
      StopStep(ss[j - 1], steps[j - 1]);
    }
  }

  /** Once the flags are cleared, whatever the schedule: `n` threads and main take at most `6 * n + 1` more steps, and
      the count that main returns is the one at that moment plus the increments already under way, at most one a
      thread. */
  lemma ShutdownTerminates(ss: seq<State>, steps: seq<Step>, i: nat, j: nat)
    requires Execution(ss, steps) && i <= j < |ss|
    requires Stopped(ss[i])
    ensures j - i <= 6 * |ss[i].workers| + 1
    ensures ss[j].main.Returned? <==> forall step: Step :: !Enabled(ss[j], step)
    ensures ss[j].main.Returned? ==> ss[j].main.count == Uint64(Iterations(ss[i].workers) + Pending(ss[i].workers))
    ensures Pending(ss[i].workers) <= |ss[i].workers|
  {
    StopAlongPath(ss, steps, i, j);
    RankBounds(ss[i].workers);
    NoDeadlock(ss, steps, j);
    if ss[j].main.Returned? {
      NoLostUpdates(ss, steps, j);
      NothingPending(ss[j].workers);
    }
  }

  lemma {:induction false} NothingPending(ws: seq<Worker>)
    requires forall t :: 0 <= t < |ws| ==> ws[t].pc == Done
    ensures Pending(ws) == 0
  {
    if ws != [] {
      NothingPending(ws[..|ws| - 1]);
    }
  }

  // ---- The runs there are ----

  function Last(ss: seq<State>): State
    requires ss != []
  {
    ss[|ss| - 1]
  }

  lemma Extend(ss: seq<State>, steps: seq<Step>, step: Step) returns (ss': seq<State>, steps': seq<Step>)
    requires Execution(ss, steps) && Enabled(Last(ss), step)
    ensures ss' != [] && Execution(ss', steps') && Last(ss') == Take(Last(ss), step)
  {
    hide Initial, Enabled, Take;
    ss', steps' := ss + [Take(Last(ss), step)], steps + [step];
  }

  /** Threads that have been created and have done `ks[j]` iterations each stand at the head of their loops. */
  ghost predicate AtHeads(s: State, ks: seq<nat>) {
    && s.owner == Free && s.main == Clear(0) && |s.workers| == |ks|
    && forall j :: 0 <= j < |ks| ==>
         s.workers[j].pc == Head && s.workers[j].running && s.workers[j].iterations == ks[j]
  }

  lemma CreateAll(n: nat) returns (ss: seq<State>, steps: seq<Step>)
    ensures ss != [] && Execution(ss, steps) && AtHeads(Last(ss), seq(n, _ => 0))
  {
    ss, steps := [State(Free, 0, seq(n, _ => Worker(New, false, 0, 0)), Create(0))], [];
    for i := 0 to n
      invariant ss != [] && Execution(ss, steps)
      invariant Last(ss).owner == Free && Last(ss).main == Create(i) && |Last(ss).workers| == n
      invariant forall j :: 0 <= j < n ==>
        Last(ss).workers[j] == if j < i then Worker(Head, true, 0, 0) else Worker(New, false, 0, 0)
    {
      hide Execution;
      ss, steps := Extend(ss, steps, MainRuns);
    }
    ss, steps := Extend(ss, steps, MainRuns);
  }

  /** Thread `t` goes once around its loop: head, lock, load, store, unlock. */
  lemma GoAround(ss: seq<State>, steps: seq<Step>, ks: seq<nat>, t: nat) returns (ss': seq<State>, steps': seq<Step>)
    requires Execution(ss, steps) && AtHeads(Last(ss), ks) && t < |ks|
    ensures ss' != [] && Execution(ss', steps') && AtHeads(Last(ss'), ks[t := ks[t] + 1])
  {
    hide Execution;
    ss', steps' := Extend(ss, steps, WorkerRuns(t));
    ss', steps' := Extend(ss', steps', WorkerRuns(t));
    ss', steps' := Extend(ss', steps', WorkerRuns(t));
    ss', steps' := Extend(ss', steps', WorkerRuns(t));
    ss', steps' := Extend(ss', steps', WorkerRuns(t));
  }

  lemma IterateAll(ks: seq<nat>) returns (ss: seq<State>, steps: seq<Step>)
    ensures ss != [] && Execution(ss, steps) && AtHeads(Last(ss), ks)
  {
    hide Execution, AtHeads;
    var done := seq(|ks|, _ => 0);
    ss, steps := CreateAll(|ks|);
    for t := 0 to |ks|
      invariant ss != [] && Execution(ss, steps) && AtHeads(Last(ss), done)
      invariant |done| == |ks| && forall j :: 0 <= j < |ks| ==> done[j] == if j < t then ks[j] else 0
    {
      for k := 0 to ks[t]
        invariant ss != [] && Execution(ss, steps) && AtHeads(Last(ss), done)
        invariant |done| == |ks|
        invariant forall j :: 0 <= j < |ks| ==> done[j] == if j < t then ks[j] else if j == t then k else 0
      {
        ss, steps := GoAround(ss, steps, done, t);
        done := done[t := done[t] + 1];
      }
    }
    assert done == ks;
  }

  /** From the heads of their loops the threads are stopped, leave and are joined. */
  lemma StopAll(ss: seq<State>, steps: seq<Step>, ks: seq<nat>) returns (ss': seq<State>, steps': seq<Step>)
    requires ss != [] && Execution(ss, steps) && AtHeads(Last(ss), ks)
    ensures ss' != [] && Execution(ss', steps') && Last(ss').main.Returned? && |Last(ss').workers| == |ks|
    ensures forall j :: 0 <= j < |ks| ==> Last(ss').workers[j].iterations == ks[j]
  {
    hide Execution;
    var n := |ks|;
    ss', steps' := ss, steps;
    for i := 0 to n
      invariant ss' != [] && Execution(ss', steps')
      invariant Last(ss').main == Clear(i) && |Last(ss').workers| == n
      invariant forall j :: 0 <= j < n ==> Last(ss').workers[j].pc == Head && Last(ss').workers[j].iterations == ks[j]
      invariant forall j :: 0 <= j < i ==> !Last(ss').workers[j].running
    {
      ss', steps' := Extend(ss', steps', MainRuns);
    }
    ss', steps' := Extend(ss', steps', MainRuns);
    for i := 0 to n
      invariant ss' != [] && Execution(ss', steps')
      invariant Last(ss').main == Join(0) && |Last(ss').workers| == n
      invariant forall j :: 0 <= j < n ==> Last(ss').workers[j].iterations == ks[j]
      invariant forall j :: 0 <= j < i ==> Last(ss').workers[j].pc == Done
      invariant forall j :: i <= j < n ==> Last(ss').workers[j].pc == Head && !Last(ss').workers[j].running
    {
      ss', steps' := Extend(ss', steps', WorkerRuns(i));
    }
    for i := 0 to n
      invariant ss' != [] && Execution(ss', steps')
      invariant Last(ss').main == Join(i) && |Last(ss').workers| == n
      invariant forall j :: 0 <= j < n ==> Last(ss').workers[j].iterations == ks[j] && Last(ss').workers[j].pc == Done
    {
      ss', steps' := Extend(ss', steps', MainRuns);
    }
    ss', steps' := Extend(ss', steps', MainRuns);
  }

  function Sum(ks: seq<nat>): nat {
    if ks == [] then 0 else Sum(ks[..|ks| - 1]) + ks[|ks| - 1]
  }

  lemma {:induction false} IterationsSum(ws: seq<Worker>, ks: seq<nat>)
    requires |ws| == |ks| && forall j :: 0 <= j < |ks| ==> ws[j].iterations == ks[j]
    ensures Iterations(ws) == Sum(ks)
  {
    if ks != [] {
      IterationsSum(ws[..|ws| - 1], ks[..|ks| - 1]);
    }
  }

  /** Every distribution of iterations over threads is that of some run, and main then returns their sum. */
  lemma EveryCountReached(ks: seq<nat>) returns (ss: seq<State>, steps: seq<Step>)
    ensures ss != [] && Execution(ss, steps) && |Last(ss).workers| == |ks|
    ensures forall t :: 0 <= t < |ks| ==> Last(ss).workers[t].iterations == ks[t]
    ensures Last(ss).main == Returned(Sum(ks) % 0x1_0000_0000_0000_0000)
  {
    hide Execution, AtHeads;
    ss, steps := IterateAll(ks);
    ss, steps := StopAll(ss, steps, ks);
    IterationsSum(Last(ss).workers, ks);
    NoLostUpdates(ss, steps, |ss| - 1);
  }
}
