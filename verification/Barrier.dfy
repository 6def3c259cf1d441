/**
  The start and finish barrier of bench/bench.cc (ThreadBody and RunBenchmark), with the
  background writer of readwhilewriting, as a step system.

  There is one mutex and one condition variable.  A thread inside the mutex is in a
  holding phase; a thread in cv.Wait() is asleep until a SignalAll or a spurious wake-up
  moves it to woken, and must then take the mutex again before it tests its condition.
  What a thread does between two operations on the mutex is one step.
*/
module Barrier {
  import opened Counting

  /** Where a worker stands in ThreadBody. */
  datatype Phase =
    | Unborn                       // not yet started by RunBenchmark
    | WantEntry | HoldEntry        // at the first lock; inside it
    | Testing | Asleep | Woken     // while (!start) Wait()
    | Leaving                      // saw start, still inside the mutex
    | Ready                        // outside, before its method
    | Running                      // inside its method
    | WriterWant | WriterHold | WriterPut   // thread 0 of readwhilewriting: BGWriter's loop
    | Returned                     // method done, stats.Stop() next
    | WantExit | HoldExit          // at the second lock; inside it
    | Counted                      // counted itself done, still inside the mutex
    | Gone                         // left ThreadBody

  /** `stopped` and `counted` record stats.Stop() and the increments of num_done. */
  datatype Worker = Worker(phase: Phase, stopped: bool, counted: nat)

  /** Where RunBenchmark stands. */
  datatype MainPhase =
    | Spawning(next: nat)
    | Testing1 | Asleep1 | Woken1  // while (num_initialized < n) Wait()
    | Opening                      // start = true, SignalAll next
    | Testing2 | Asleep2 | Woken2  // while (num_done < n) Wait()
    | Closing                      // saw everyone done, still inside the mutex
    | Reporting                    // after the final unlock: reports, deletes, returns

  datatype Holder = Free | Main | Thread(i: nat)

  datatype State = State(
    bgWriter: bool,                // is this readwhilewriting?
    mu: Holder, numInit: nat, numDone: nat, start: bool,
    main: MainPhase, workers: seq<Worker>)

  datatype Step = MainStep | ThreadStep(i: nat) | SpuriousMain | SpuriousThread(i: nat)

  function Initial(n: nat, bgWriter: bool): State {
    State(bgWriter, Free, 0, 0, false, Spawning(0), seq(n, i => Worker(Unborn, false, 0)))
  }

  // ----- Steps -----

  function Wake(w: Worker): Worker {
    if w.phase.Asleep? then w.(phase := Woken) else w
  }

  function WakeMain(m: MainPhase): MainPhase {
    match m
    case Asleep1 => Woken1
    case Asleep2 => Woken2
    case _ => m
  }

  function SignalAll(s: State): State {
    s.(main := WakeMain(s.main),
       workers := seq(|s.workers|, i requires 0 <= i < |s.workers| => Wake(s.workers[i])))
  }

  predicate Enabled(s: State, step: Step) {
    match step
    case MainStep =>
      (match s.main
       case Spawning(k) => k < |s.workers| || s.mu.Free?
       case Woken1 | Woken2 => s.mu.Free?
       case Asleep1 | Asleep2 | Reporting => false
       case _ => true)
    case ThreadStep(i) =>
      i < |s.workers| &&
      (match s.workers[i].phase
       case Unborn | Asleep | Gone => false
       case WantEntry | Woken | WriterWant | WantExit => s.mu.Free?
       case _ => true)
    case SpuriousMain => s.main.Asleep1? || s.main.Asleep2?
    case SpuriousThread(i) => i < |s.workers| && s.workers[i].phase.Asleep?
  }

  function Apply(s: State, step: Step): State
    requires Enabled(s, step)
  {
    match step
    case MainStep => ApplyMain(s)
    case ThreadStep(i) => ApplyThread(s, i)
    case SpuriousMain => s.(main := WakeMain(s.main))
    case SpuriousThread(i) => Move(s, i, Woken)
  }

  function Move(s: State, i: nat, phase: Phase): State
    requires i < |s.workers|
  {
    s.(workers := s.workers[i := s.workers[i].(phase := phase)])
  }

  function ApplyMain(s: State): State
    requires Enabled(s, MainStep)
  {
    match s.main
    case Spawning(k) =>
      if k < |s.workers| then Move(s, k, WantEntry).(main := Spawning(k + 1))
      else s.(mu := Main, main := Testing1)
    case Testing1 =>
      if s.numInit < |s.workers| then s.(mu := Free, main := Asleep1) else s.(main := Opening)
    case Woken1 => s.(mu := Main, main := Testing1)
    case Opening => SignalAll(s.(start := true, main := Testing2))
    case Testing2 =>
      if s.numDone < |s.workers| then s.(mu := Free, main := Asleep2) else s.(main := Closing)
    case Woken2 => s.(mu := Main, main := Testing2)
    case Closing => s.(mu := Free, main := Reporting)
  }

  /** Thread i's next step.  The two steps that count also signal when the count is full. */
  function ApplyThread(s: State, i: nat): State
    requires Enabled(s, ThreadStep(i))
  {
    var n, w := |s.workers|, s.workers[i];
    if w.phase.HoldEntry? then
      var s' := s.(numInit := s.numInit + 1, workers := s.workers[i := w.(phase := Testing)]);
      if s'.numInit >= n then SignalAll(s') else s'
    else if w.phase.HoldExit? then
      var s' := s.(numDone := s.numDone + 1,
                   workers := s.workers[i := w.(phase := Counted, counted := w.counted + 1)]);
      if s'.numDone >= n then SignalAll(s') else s'
    else
      s.(workers := s.workers[i := NextWorker(s, i)], mu := NextHolder(s, i))
  }

  function NextWorker(s: State, i: nat): Worker
    requires Enabled(s, ThreadStep(i))
  {
    var w := s.workers[i];
    match w.phase
    case WantEntry => w.(phase := HoldEntry)
    case Testing => w.(phase := if s.start then Leaving else Asleep)
    case Woken => w.(phase := Testing)
    case Leaving => w.(phase := Ready)
    case Ready => w.(phase := if s.bgWriter && i == 0 then WriterWant else Running)
    case Running => w.(phase := Returned)
    case WriterWant => w.(phase := WriterHold)
    case WriterHold => w.(phase := if s.numDone + 1 >= s.numInit then Returned else WriterPut)
    case WriterPut => w.(phase := WriterWant)
    case Returned => w.(phase := WantExit, stopped := true)
    case WantExit => w.(phase := HoldExit)
    case Counted => w.(phase := Gone)
    case _ => w
  }

  function NextHolder(s: State, i: nat): Holder
    requires Enabled(s, ThreadStep(i))
  {
    match s.workers[i].phase
    case WantEntry | Woken | WriterWant | WantExit => Thread(i)
    case Testing => if s.start then s.mu else Free
    case Leaving | WriterHold | Counted => Free
    case _ => s.mu
  }

  ghost predicate IsRun(states: seq<State>, steps: seq<Step>, n: nat, bgWriter: bool) {
    && |states| == |steps| + 1
    && states[0] == Initial(n, bgWriter)
    && forall i :: 0 <= i < |steps| ==> Enabled(states[i], steps[i]) && states[i + 1] == Apply(states[i], steps[i])
  }

  // ----- The invariant -----

  predicate Holding(p: Phase) {
    p.HoldEntry? || p.Testing? || p.Leaving? || p.WriterHold? || p.HoldExit? || p.Counted?
  }

  predicate MainHolding(m: MainPhase) {
    m.Testing1? || m.Opening? || m.Testing2? || m.Closing?
  }

  predicate HasInitialised(p: Phase) {
    !(p.Unborn? || p.WantEntry? || p.HoldEntry?)
  }

  predicate InMethod(p: Phase) {
    p.Running? || InWriter(p)
  }

  predicate InWriter(p: Phase) {
    p.WriterWant? || p.WriterHold? || p.WriterPut?
  }

  predicate PastMethod(p: Phase) {
    p.Returned? || p.WantExit? || p.HoldExit? || p.Counted? || p.Gone?
  }

  predicate SawStart(p: Phase) {
    HasInitialised(p) && !(p.Testing? || p.Asleep? || p.Woken?)
  }

  predicate HasCounted(p: Phase) {
    p.Counted? || p.Gone?
  }

  predicate HasOpened(m: MainPhase) {
    m.Testing2? || m.Asleep2? || m.Woken2? || m.Closing? || m.Reporting?
  }

  function InitialisedOf(w: Worker): nat {
    if HasInitialised(w.phase) then 1 else 0
  }

  function CountedOf(w: Worker): nat {
    if HasCounted(w.phase) then 1 else 0
  }

  ghost predicate WorkerOk(s: State, i: nat)
    requires i < |s.workers|
  {
    var w := s.workers[i];
    && (s.mu == Thread(i) <==> Holding(w.phase))
    && (w.phase.Unborn? <==> s.main.Spawning? && s.main.next <= i)
    && (SawStart(w.phase) ==> s.start)
    && (InWriter(w.phase) ==> s.bgWriter && i == 0)
    && (w.phase.Running? ==> !(s.bgWriter && i == 0))
    && (w.stopped <==> w.phase.WantExit? || w.phase.HoldExit? || w.phase.Counted? || w.phase.Gone?)
    && w.counted == CountedOf(w)
    && (s.main.Closing? || s.main.Reporting? ==> w.phase.Gone?)
  }

  ghost predicate MainOk(s: State) {
    var n := |s.workers|;
    && (s.mu.Main? <==> MainHolding(s.main))
    && (s.mu.Thread? ==> s.mu.i < n)
    && (s.main.Spawning? ==> s.main.next <= n)
    && (s.start <==> HasOpened(s.main))
    && (s.main.Opening? || s.start ==> s.numInit == n)
    && s.numInit == Sum(InitialisedOf, s.workers) <= n
    && s.numDone == Sum(CountedOf, s.workers) <= n
  }

  ghost predicate Consistent(s: State) {
    && MainOk(s)
    && forall i :: 0 <= i < |s.workers| ==> WorkerOk(s, i)
  }

  /** No lost wake-up: whoever sleeps still has something to wait for. */
  ghost predicate SleepersWait(s: State) {
    && (s.main.Asleep1? ==> s.numInit < |s.workers|)
    && (s.main.Asleep2? ==> s.numDone < |s.workers|)
    && forall i :: 0 <= i < |s.workers| && s.workers[i].phase.Asleep? ==> !s.start
  }

  ghost predicate Inv(s: State) {
    Consistent(s) && SleepersWait(s)
  }

  lemma InitialInv(n: nat, bgWriter: bool)
    ensures Inv(Initial(n, bgWriter))
  {
    SumOfZeros(InitialisedOf, Initial(n, bgWriter).workers);
    SumOfZeros(CountedOf, Initial(n, bgWriter).workers);
  }

  /** After a SignalAll nobody sleeps, so nobody can have missed it. */
  lemma SignalAllRestores(s: State)
    requires Consistent(s)
    ensures Inv(SignalAll(s))
  {
    var s' := SignalAll(s);
    SignalAllMainOk(s);
    forall i | 0 <= i < |s'.workers| ensures WorkerOk(s', i) {
      WakeKeepsOk(s, i);
    }
    assert SleepersWait(s') by {
      assert forall i :: 0 <= i < |s'.workers| ==> !s'.workers[i].phase.Asleep?;
    }
  }

  lemma SignalAllMainOk(s: State)
    requires MainOk(s)
    ensures MainOk(SignalAll(s))
  {
    WakeSums(s.workers, SignalAll(s).workers);
  }

  lemma WakeSums(ws: seq<Worker>, ws': seq<Worker>)
    requires |ws'| == |ws| && forall i :: 0 <= i < |ws| ==> ws'[i] == Wake(ws[i])
    ensures Sum(InitialisedOf, ws') == Sum(InitialisedOf, ws)
    ensures Sum(CountedOf, ws') == Sum(CountedOf, ws)
    ensures Sum(Rank, ws') <= Sum(Rank, ws) + 2 * |ws|
  {
    SumPointwise(InitialisedOf, ws, ws', 0);
    SumPointwise(CountedOf, ws, ws', 0);
    SumPointwise(Rank, ws, ws', 2);
  }

  lemma WakeKeepsOk(s: State, i: nat)
    requires i < |s.workers| && WorkerOk(s, i)
    ensures WorkerOk(SignalAll(s), i)
  {
  }

  // ----- Every step keeps the invariant -----

  lemma StepKeepsInv(s: State, step: Step)
    requires Inv(s) && Enabled(s, step)
    ensures Inv(Apply(s, step))
  {
    match step
    case MainStep => MainKeepsInv(s);
    case ThreadStep(i) => ThreadKeepsInv(s, i);
    case SpuriousMain =>
      var s' := Apply(s, step);
      assert forall i :: 0 <= i < |s.workers| ==> WorkerOk(s, i) ==> WorkerOk(s', i);
    case SpuriousThread(i) =>
      assert WorkerOk(s, i);
      MoveKeepsConsistent(s, i, s.workers[i].(phase := Woken), s.mu);
  }

  /** One worker changes its phase and perhaps the owner of the mutex. */
  lemma MoveKeepsConsistent(s: State, i: nat, w: Worker, mu: Holder)
    requires Consistent(s) && i < |s.workers|
    requires InitialisedOf(w) == InitialisedOf(s.workers[i]) && CountedOf(w) == CountedOf(s.workers[i])
    requires mu == s.mu || (mu.Free? && s.mu == Thread(i)) || (mu == Thread(i) && s.mu.Free?)
    requires WorkerOk(s.(workers := s.workers[i := w], mu := mu), i)
    ensures Consistent(s.(workers := s.workers[i := w], mu := mu))
  {
    var s' := s.(workers := s.workers[i := w], mu := mu);
    SumUpdate(InitialisedOf, s.workers, i, w);
    SumUpdate(CountedOf, s.workers, i, w);
    forall j | 0 <= j < |s'.workers| ensures WorkerOk(s', j) {
      assert WorkerOk(s, j);
    }
  }

  lemma ThreadKeepsInv(s: State, i: nat)
    requires Inv(s) && Enabled(s, ThreadStep(i))
    ensures Inv(ApplyThread(s, i))
  {
    assert WorkerOk(s, i);
    if s.workers[i].phase.HoldEntry? {
      EntryKeepsInv(s, i);
    } else if s.workers[i].phase.HoldExit? {
      ExitKeepsInv(s, i);
    } else {
      NextWorkerOk(s, i);
      MoveKeepsConsistent(s, i, NextWorker(s, i), NextHolder(s, i));
    }
  }

  lemma NextWorkerOk(s: State, i: nat)
    requires MainOk(s) && Enabled(s, ThreadStep(i)) && WorkerOk(s, i)
    requires !s.workers[i].phase.HoldEntry? && !s.workers[i].phase.HoldExit?
    ensures var w, w', mu := s.workers[i], NextWorker(s, i), NextHolder(s, i);
            && InitialisedOf(w') == InitialisedOf(w) && CountedOf(w') == CountedOf(w)
            && (mu == s.mu || (mu.Free? && s.mu == Thread(i)) || (mu == Thread(i) && s.mu.Free?))
            && WorkerOk(s.(workers := s.workers[i := w'], mu := mu), i)
            && (w'.phase.Asleep? ==> !s.start)
  {
  }

  lemma EntryKeepsInv(s: State, i: nat)
    requires Inv(s) && i < |s.workers| && s.workers[i].phase.HoldEntry?
    ensures Inv(ApplyThread(s, i))
  {
    assert WorkerOk(s, i);
    var w := s.workers[i].(phase := Testing);
    var t := s.(workers := s.workers[i := w], numInit := s.numInit + 1);
    CountingKeepsSums(s, i, w);
    NotYetCounted(s, i);
    assert Consistent(t) by {
      forall j | 0 <= j < |t.workers| ensures WorkerOk(t, j) {
        assert WorkerOk(s, j);
      }
    }
    SignalAllRestores(t);
  }

  lemma CountingKeepsSums(s: State, i: nat, w: Worker)
    requires i < |s.workers|
    ensures Sum(InitialisedOf, s.workers[i := w]) + InitialisedOf(s.workers[i]) == Sum(InitialisedOf, s.workers) + InitialisedOf(w)
    ensures Sum(CountedOf, s.workers[i := w]) + CountedOf(s.workers[i]) == Sum(CountedOf, s.workers) + CountedOf(w)
  {
    SumUpdate(InitialisedOf, s.workers, i, w);
    SumUpdate(CountedOf, s.workers, i, w);
  }

  lemma ExitKeepsInv(s: State, i: nat)
    requires Inv(s) && i < |s.workers| && s.workers[i].phase.HoldExit?
    ensures Inv(ApplyThread(s, i))
  {
    assert WorkerOk(s, i);
    var w := s.workers[i].(phase := Counted, counted := s.workers[i].counted + 1);
    var t := s.(workers := s.workers[i := w], numDone := s.numDone + 1);
    CountingKeepsSums(s, i, w);
    NotYetCounted(s, i);
    assert Consistent(t) by {
      forall j | 0 <= j < |t.workers| ensures WorkerOk(t, j) {
        assert WorkerOk(s, j);
      }
    }
    SignalAllRestores(t);
  }

  lemma MainKeepsInv(s: State)
    requires Inv(s) && Enabled(s, MainStep)
    ensures Inv(ApplyMain(s))
  {
    if s.main.Spawning? && s.main.next < |s.workers| {
      SpawnKeepsInv(s);
    } else if s.main.Opening? {
      OpeningKeepsInv(s);
    } else if s.main.Testing2? || s.main.Closing? {
      ClosingKeepsInv(s);
    } else {
      MainMoveKeepsWorkers(s, ApplyMain(s));
    }
  }

  lemma OpeningKeepsInv(s: State)
    requires Inv(s) && s.main.Opening?
    ensures Inv(ApplyMain(s))
  {
    var t := s.(start := true, main := Testing2);
    MainMoveKeepsWorkers(s, t);
    SignalAllRestores(t);
  }

  lemma ClosingKeepsInv(s: State)
    requires Inv(s) && (s.main.Testing2? || s.main.Closing?)
    ensures Inv(ApplyMain(s))
  {
    EveryoneGone(s);
    assert s.main.Closing? ==> forall i :: 0 <= i < |s.workers| ==> WorkerOk(s, i) && s.workers[i].phase.Gone?;
    MainMoveKeepsWorkers(s, ApplyMain(s));
  }

  lemma SpawnKeepsInv(s: State)
    requires Inv(s) && s.main.Spawning? && s.main.next < |s.workers|
    ensures Inv(ApplyMain(s))
  {
    var k, s' := s.main.next, ApplyMain(s);
    assert WorkerOk(s, k);
    SumUpdate(InitialisedOf, s.workers, k, s'.workers[k]);
    SumUpdate(CountedOf, s.workers, k, s'.workers[k]);
    forall i | 0 <= i < |s'.workers| ensures WorkerOk(s', i) {
      assert WorkerOk(s, i);
    }
  }

  lemma MainMoveKeepsWorkers(s: State, s': State)
    requires Consistent(s)
    requires s'.mu == s.mu || (s'.mu.Free? && s.mu.Main?) || (s'.mu.Main? && s.mu.Free?)
    requires s'.bgWriter == s.bgWriter && (s.start ==> s'.start)
    requires s'.main.Closing? || s'.main.Reporting? ==>
               forall i :: 0 <= i < |s.workers| ==> s.workers[i].phase.Gone?
    requires s'.workers == s.workers && !s'.main.Spawning?
    requires s.main.Spawning? ==> s.main.next == |s.workers|
    ensures forall i :: 0 <= i < |s'.workers| ==> WorkerOk(s', i)
  {
    forall i | 0 <= i < |s'.workers| ensures WorkerOk(s', i) {
      assert WorkerOk(s, i);
    }
  }

  /** When RunBenchmark holds the mutex and all are counted, all have released it for good. */
  lemma EveryoneGone(s: State)
    requires Inv(s) && s.mu.Main?
    ensures s.numDone >= |s.workers| ==> forall i :: 0 <= i < |s.workers| ==> s.workers[i].phase.Gone?
  {
    if s.numDone >= |s.workers| {
      SumOfIndicators(CountedOf, s.workers);
      forall i | 0 <= i < |s.workers| ensures s.workers[i].phase.Gone? {
        assert WorkerOk(s, i) && CountedOf(s.workers[i]) == 1;
      }
    }
  }

  lemma StepKeepsShape(s: State, step: Step)
    requires Enabled(s, step)
    ensures |Apply(s, step).workers| == |s.workers| && Apply(s, step).bgWriter == s.bgWriter
  {
  }

  lemma {:induction false} RunKeepsInv(states: seq<State>, steps: seq<Step>, n: nat, bgWriter: bool, i: nat)
    requires IsRun(states, steps, n, bgWriter) && i < |states|
    ensures Inv(states[i]) && |states[i].workers| == n && states[i].bgWriter == bgWriter
  {
    if i == 0 {
      InitialInv(n, bgWriter);
    } else {
      RunKeepsInv(states, steps, n, bgWriter, i - 1);
      StepKeepsInv(states[i - 1], steps[i - 1]);
      StepKeepsShape(states[i - 1], steps[i - 1]);
    }
  }

  // ----- Safety, for every run -----

  /** No worker is in its method, or past it, before all n have initialised. */
  lemma StartsTogether(states: seq<State>, steps: seq<Step>, n: nat, bgWriter: bool, k: nat, i: nat, j: nat)
    requires IsRun(states, steps, n, bgWriter) && k < |states| && i < n && j < n
    ensures |states[k].workers| == n
    ensures InMethod(states[k].workers[i].phase) || states[k].workers[i].phase.Returned? || states[k].workers[i].stopped
            ==> HasInitialised(states[k].workers[j].phase)
  {
    var s := states[k];
    RunKeepsInv(states, steps, n, bgWriter, k);
    assert WorkerOk(s, i);
    if s.start {
      SumOfIndicators(InitialisedOf, s.workers);
      assert InitialisedOf(s.workers[j]) == 1;
    }
  }

  /** Once RunBenchmark passed its final unlock, every worker has stopped its clock, counted
      itself exactly once and left, and no thread can touch the shared state again. */
  lemma Lifetime(states: seq<State>, steps: seq<Step>, n: nat, bgWriter: bool, k: nat)
    requires IsRun(states, steps, n, bgWriter) && k < |states| && states[k].main.Reporting?
    ensures |states[k].workers| == n && states[k].mu.Free?
    ensures forall i :: 0 <= i < n ==> states[k].workers[i] == Worker(Gone, true, 1)
    ensures forall step :: !Enabled(states[k], step)
  {
    RunKeepsInv(states, steps, n, bgWriter, k);
    forall i | 0 <= i < n ensures states[k].workers[i] == Worker(Gone, true, 1) {
      assert WorkerOk(states[k], i);
    }
    var s := states[k];
    assert s.mu.Thread? ==> WorkerOk(s, s.mu.i);
  }

  ghost predicate OthersCounted(s: State) {
    forall j :: 1 <= j < |s.workers| ==> HasCounted(s.workers[j].phase)
  }

  lemma WriterTest(s: State)
    requires Inv(s) && |s.workers| > 0 && s.workers[0].phase.WriterHold?
    ensures NextWorker(s, 0).phase.Returned? <==> OthersCounted(s)
  {
    var n := |s.workers|;
    assert WorkerOk(s, 0);
    // Pretend the writer were counted: then the sum is n exactly when all others are.
    var ws := s.workers[0 := Worker(Gone, true, 1)];
    SumUpdate(CountedOf, s.workers, 0, ws[0]);
    SumOfIndicators(CountedOf, ws);
    assert s.numInit == n && Sum(CountedOf, ws) == s.numDone + 1;
    if s.numDone + 1 >= n {
      forall j | 1 <= j < n ensures HasCounted(s.workers[j].phase) {
        assert CountedOf(ws[j]) == 1;
      }
    }
  }

  /** The background writer's test is exact: in every reachable state it would leave its
      loop now if and only if all the other threads have counted themselves done. */
  lemma WriterExit(states: seq<State>, steps: seq<Step>, n: nat, k: nat)
    requires IsRun(states, steps, n, true) && k < |states| && n > 0
    requires |states[k].workers| == n && states[k].workers[0].phase.WriterHold?
    ensures NextWorker(states[k], 0).phase.Returned?
            <==> forall j :: 1 <= j < n ==> HasCounted(states[k].workers[j].phase)
  {
    RunKeepsInv(states, steps, n, true, k);
    WriterTest(states[k]);
  }

  /** A put of the background writer. */
  predicate IsPut(s: State, step: Step) {
    step.ThreadStep? && step.i < |s.workers| && s.workers[step.i].phase.WriterPut?
  }

  /** The puts between two states of a run. */
  ghost function Puts(states: seq<State>, steps: seq<Step>, k: nat, m: nat): nat
    requires |states| == |steps| + 1 && k <= m <= |steps|
  {
    if k == m then 0
    else Puts(states, steps, k, m - 1) + if IsPut(states[m - 1], steps[m - 1]) then 1 else 0
  }

  /** The put the writer has decided on but not done. */
  function PendingPut(s: State): nat {
    if |s.workers| > 0 && s.workers[0].phase.WriterPut? then 1 else 0
  }

  lemma OthersStayCounted(s: State, step: Step)
    requires OthersCounted(s) && Enabled(s, step)
    ensures OthersCounted(Apply(s, step)) || (s.main.Spawning? && s.main.next < |s.workers|)
  {
  }

  /** When the others are counted no new put is decided on. */
  lemma LateStep(s: State, step: Step)
    requires Inv(s) && OthersCounted(s) && Enabled(s, step)
    ensures PendingPut(Apply(s, step)) + (if IsPut(s, step) then 1 else 0) <= PendingPut(s)
  {
    if step.ThreadStep? {
      assert WorkerOk(s, step.i);
      if step.i == 0 && s.workers[0].phase.WriterHold? {
        WriterTest(s);
      }
    }
  }

  lemma NoSpawnWhenCounted(s: State)
    requires Inv(s) && OthersCounted(s) && |s.workers| > 1
    ensures !(s.main.Spawning? && s.main.next < |s.workers|)
  {
    assert WorkerOk(s, |s.workers| - 1);
  }

  /** Once all the others have counted themselves done, the writer does at most the one put
      it may already have decided on. */
  lemma {:induction false} AtMostOneLatePut(states: seq<State>, steps: seq<Step>, n: nat, bgWriter: bool, k: nat, m: nat)
    requires IsRun(states, steps, n, bgWriter) && k <= m <= |steps| && OthersCounted(states[k])
    ensures OthersCounted(states[m])
    ensures Puts(states, steps, k, m) + PendingPut(states[m]) <= PendingPut(states[k]) <= 1
  {
    if k < m {
      var s := states[m - 1];
      AtMostOneLatePut(states, steps, n, bgWriter, k, m - 1);
      RunKeepsInv(states, steps, n, bgWriter, m - 1);
      LateStep(s, steps[m - 1]);
      OthersStayCounted(s, steps[m - 1]);
      StepKeepsShape(s, steps[m - 1]);
      if |s.workers| > 1 {
        NoSpawnWhenCounted(s);
      }
    }
  }

  /** Who does what: only thread 0 of readwhilewriting is the background writer, and it never
      runs a reader's method. */
  lemma Roles(states: seq<State>, steps: seq<Step>, n: nat, bgWriter: bool, k: nat, i: nat)
    requires IsRun(states, steps, n, bgWriter) && k < |states| && i < n
    ensures |states[k].workers| == n
    ensures InMethod(states[k].workers[i].phase) ==>
              if bgWriter && i == 0 then InWriter(states[k].workers[i].phase) else states[k].workers[i].phase.Running?
  {
    RunKeepsInv(states, steps, n, bgWriter, k);
    assert WorkerOk(states[k], i);
  }

  lemma EntersPast(s: State, step: Step, i: nat)
    requires Inv(s) && Enabled(s, step) && i < |s.workers|
    ensures |Apply(s, step).workers| == |s.workers|
    ensures !PastMethod(s.workers[i].phase) && PastMethod(Apply(s, step).workers[i].phase) ==>
              step == ThreadStep(i) && (s.workers[i].phase.Running? || s.workers[i].phase.WriterHold?)
  {
    if step.ThreadStep? {
      ThreadEntersPast(s, step.i, i);
    } else if step.MainStep? {
      MainEntersNothing(s, i);
    }
  }

  lemma ThreadEntersPast(s: State, j: nat, i: nat)
    requires Enabled(s, ThreadStep(j)) && i < |s.workers|
    ensures |ApplyThread(s, j).workers| == |s.workers|
    ensures !PastMethod(s.workers[i].phase) && PastMethod(ApplyThread(s, j).workers[i].phase) ==>
              j == i && (s.workers[i].phase.Running? || s.workers[i].phase.WriterHold?)
  {
  }

  lemma MainEntersNothing(s: State, i: nat)
    requires Inv(s) && Enabled(s, MainStep) && i < |s.workers|
    ensures |ApplyMain(s).workers| == |s.workers|
    ensures PastMethod(ApplyMain(s).workers[i].phase) ==> PastMethod(s.workers[i].phase)
  {
  }

  /** Nobody skips its method: whoever is past it has been in it. */
  lemma {:induction false} EveryoneRan(states: seq<State>, steps: seq<Step>, n: nat, bgWriter: bool, k: nat, i: nat)
    returns (m: nat)
    requires IsRun(states, steps, n, bgWriter) && k < |states| && i < n
    ensures m <= k && |states[k].workers| == |states[m].workers| == n
    ensures PastMethod(states[k].workers[i].phase) ==> InMethod(states[m].workers[i].phase)
  {
    m := 0;
    if k > 0 {
      RunKeepsInv(states, steps, n, bgWriter, k - 1);
      EntersPast(states[k - 1], steps[k - 1], i);
      m := EveryoneRan(states, steps, n, bgWriter, k - 1, i);
      if !PastMethod(states[k - 1].workers[i].phase) {
        m := k - 1;
      }
    }
  }

  lemma StepKeepsWriterLast(s: State, step: Step)
    requires Inv(s) && Enabled(s, step) && s.bgWriter && |s.workers| > 0
    requires PastMethod(s.workers[0].phase) ==> OthersCounted(s)
    ensures |Apply(s, step).workers| == |s.workers|
    ensures PastMethod(Apply(s, step).workers[0].phase) ==> OthersCounted(Apply(s, step))
  {
    StepKeepsShape(s, step);
    assert WorkerOk(s, 0);
    if PastMethod(Apply(s, step).workers[0].phase) {
      if !PastMethod(s.workers[0].phase) {
        EntersPast(s, step, 0);
        WriterTest(s);
      }
      OthersStayCounted(s, step);
      if |s.workers| > 1 {
        NoSpawnWhenCounted(s);
      }
    }
  }

  /** The background writer comes last: when it has left its loop, all the others have counted
      themselves done. */
  lemma {:induction false} WriterIsLast(states: seq<State>, steps: seq<Step>, n: nat, k: nat)
    requires IsRun(states, steps, n, true) && k < |states| && n > 0
    ensures |states[k].workers| == n
    ensures PastMethod(states[k].workers[0].phase) ==> OthersCounted(states[k])
  {
    if k > 0 {
      WriterIsLast(states, steps, n, k - 1);
      RunKeepsInv(states, steps, n, true, k - 1);
      StepKeepsWriterLast(states[k - 1], steps[k - 1]);
    }
  }

  // ----- Progress -----

  /** A step that is not a spurious wake-up. */
  predicate Proper(step: Step) {
    step.MainStep? || step.ThreadStep?
  }

  lemma SomeNotOne(f: Worker -> nat, ws: seq<Worker>) returns (i: nat)
    requires forall w :: w in ws ==> f(w) <= 1
    requires Sum(f, ws) < |ws|
    ensures i < |ws| && f(ws[i]) == 0
  {
    SumOfIndicators(f, ws);
    i :| 0 <= i < |ws| && f(ws[i]) != 1;
    assert ws[i] in ws;
  }

  /** No reachable state is stuck: until RunBenchmark is through, some thread can move
      without the help of a spurious wake-up. */
  lemma NotStuck(s: State) returns (step: Step)
    requires Inv(s) && !s.main.Reporting?
    ensures Proper(step) && Enabled(s, step)
  {
    if s.mu.Main? {
      step := MainStep;
    } else if s.mu.Thread? {
      step := ThreadStep(s.mu.i);
      assert WorkerOk(s, s.mu.i);
    } else if s.main.Asleep1? {
      var i := SomeNotOne(InitialisedOf, s.workers);
      assert WorkerOk(s, i);
      step := ThreadStep(i);
    } else if s.main.Asleep2? {
      var i := SomeNotOne(CountedOf, s.workers);
      assert WorkerOk(s, i);
      step := ThreadStep(i);
    } else {
      step := MainStep;
    }
  }

  function Rank(w: Worker): nat {
    match w.phase
    case Unborn => 17
    case WantEntry => 16
    case HoldEntry => 15
    case Woken => 14
    case Testing => 13
    case Asleep => 12
    case Leaving => 11
    case Ready => 10
    case Running => 9
    case WriterWant => 9
    case WriterHold => 8
    case WriterPut => 7
    case Returned => 6
    case WantExit => 5
    case HoldExit => 4
    case Counted => 3
    case Gone => 0
  }

  function MainRank(m: MainPhase, n: nat): nat {
    match m
    case Spawning(k) => if k <= n then 10 + (n - k) else 10
    case Woken1 => 9
    case Testing1 => 8
    case Asleep1 => 7
    case Opening => 6
    case Woken2 => 5
    case Testing2 => 4
    case Asleep2 => 3
    case Closing => 2
    case Reporting => 0
  }

  /** What a SignalAll still to come can cost: it may raise each of the n + 1 ranks by two. */
  function Reserve(n: nat, pending: bool): nat {
    if pending then 2 * n + 3 else 0
  }

  /** The ranks of all threads and a reserve for each of the three SignalAlls. */
  function Measure(s: State): nat {
    var n := |s.workers|;
    Sum(Rank, s.workers) + MainRank(s.main, n)
    + Reserve(n, s.numInit < n) + Reserve(n, !s.start) + Reserve(n, s.numDone < n)
  }

  lemma SignalAllMeasure(s: State)
    ensures Measure(SignalAll(s)) <= Measure(s) + 2 * |s.workers| + 2
  {
    WakeSums(s.workers, SignalAll(s).workers);
  }

  /** The steps that may raise the measure: spurious wake-ups and the writer's puts. */
  predicate Noise(s: State, step: Step) {
    !Proper(step) || IsPut(s, step)
  }

  function NoiseOf(s: State, step: Step): nat {
    if Noise(s, step) then 1 else 0
  }

  /** Every step lowers the measure, except noise, which raises it by at most two. */
  lemma StepMeasure(s: State, step: Step)
    requires Inv(s) && Enabled(s, step)
    ensures !Noise(s, step) ==> Measure(Apply(s, step)) < Measure(s)
    ensures Measure(Apply(s, step)) <= Measure(s) + 2
  {
    match step
    case MainStep => MainMeasure(s);
    case ThreadStep(i) => ThreadMeasure(s, i);
    case SpuriousMain =>
    case SpuriousThread(i) => SumUpdate(Rank, s.workers, i, Apply(s, step).workers[i]);
  }

  lemma MainMeasure(s: State)
    requires Inv(s) && Enabled(s, MainStep)
    ensures Measure(ApplyMain(s)) < Measure(s)
  {
    if s.main.Spawning? && s.main.next < |s.workers| {
      SpawnMeasure(s);
    } else if s.main.Opening? {
      SignalAllMeasure(s.(start := true, main := Testing2));
    }
  }

  lemma SpawnMeasure(s: State)
    requires Inv(s) && s.main.Spawning? && s.main.next < |s.workers|
    ensures Measure(ApplyMain(s)) < Measure(s)
  {
    var k := s.main.next;
    assert WorkerOk(s, k);
    MeasureUpdate(s, k, s.workers[k].(phase := WantEntry), s.mu);
  }

  lemma ThreadMeasure(s: State, i: nat)
    requires Inv(s) && Enabled(s, ThreadStep(i))
    ensures !s.workers[i].phase.WriterPut? ==> Measure(ApplyThread(s, i)) < Measure(s)
    ensures Measure(ApplyThread(s, i)) <= Measure(s) + 2
  {
    NotYetCounted(s, i);
    if s.workers[i].phase.HoldEntry? || s.workers[i].phase.HoldExit? {
      CountingMeasure(s, i);
    } else {
      MoveMeasure(s, i);
    }
  }

  lemma MoveMeasure(s: State, i: nat)
    requires Enabled(s, ThreadStep(i)) && !s.workers[i].phase.HoldEntry? && !s.workers[i].phase.HoldExit?
    ensures !s.workers[i].phase.WriterPut? ==> Measure(ApplyThread(s, i)) < Measure(s)
    ensures Measure(ApplyThread(s, i)) <= Measure(s) + 2
  {
    RankDrops(s, i);
    MeasureUpdate(s, i, NextWorker(s, i), NextHolder(s, i));
  }

  lemma RankDrops(s: State, i: nat)
    requires Enabled(s, ThreadStep(i)) && !s.workers[i].phase.HoldEntry? && !s.workers[i].phase.HoldExit?
    ensures !s.workers[i].phase.WriterPut? ==> Rank(NextWorker(s, i)) < Rank(s.workers[i])
    ensures Rank(NextWorker(s, i)) <= Rank(s.workers[i]) + 2
  {
  }

  lemma MeasureUpdate(s: State, i: nat, w: Worker, mu: Holder)
    requires i < |s.workers|
    ensures Measure(s.(workers := s.workers[i := w], mu := mu)) + Rank(s.workers[i]) == Measure(s) + Rank(w)
  {
    SumUpdate(Rank, s.workers, i, w);
  }

  /** The two steps that count pay for their SignalAll with its reserve. */
  lemma CountingMeasure(s: State, i: nat)
    requires i < |s.workers| && (s.workers[i].phase.HoldEntry? || s.workers[i].phase.HoldExit?)
    requires s.workers[i].phase.HoldEntry? ==> s.numInit < |s.workers|
    requires s.workers[i].phase.HoldExit? ==> s.numDone < |s.workers|
    ensures Measure(ApplyThread(s, i)) < Measure(s)
  {
    if s.workers[i].phase.HoldEntry? {
      EntryMeasure(s, i);
    } else {
      ExitMeasure(s, i);
    }
  }

  lemma EntryMeasure(s: State, i: nat)
    requires i < |s.workers| && s.workers[i].phase.HoldEntry? && s.numInit < |s.workers|
    ensures Measure(ApplyThread(s, i)) < Measure(s)
  {
    var w := s.workers[i].(phase := Testing);
    MeasureUpdate(s, i, w, s.mu);
    CountMeasure(s.(workers := s.workers[i := w]), s.numInit + 1, s.numDone);
  }

  lemma ExitMeasure(s: State, i: nat)
    requires i < |s.workers| && s.workers[i].phase.HoldExit? && s.numDone < |s.workers|
    ensures Measure(ApplyThread(s, i)) < Measure(s)
  {
    var w := s.workers[i].(phase := Counted, counted := s.workers[i].counted + 1);
    MeasureUpdate(s, i, w, s.mu);
    CountMeasure(s.(workers := s.workers[i := w]), s.numInit, s.numDone + 1);
  }

  lemma CountMeasure(s: State, numInit: nat, numDone: nat)
    requires numInit >= s.numInit && numDone >= s.numDone
    ensures var n, t := |s.workers|, s.(numInit := numInit, numDone := numDone);
            && Measure(t) <= Measure(s)
            && (s.numInit < n <= numInit || s.numDone < n <= numDone ==> Measure(SignalAll(t)) < Measure(s))
  {
    SignalAllMeasure(s.(numInit := numInit, numDone := numDone));
  }

  lemma NotYetCounted(s: State, i: nat)
    requires Inv(s) && i < |s.workers|
    ensures !HasInitialised(s.workers[i].phase) ==> s.numInit < |s.workers|
    ensures !HasCounted(s.workers[i].phase) ==> s.numDone < |s.workers|
  {
    SumOfIndicators(InitialisedOf, s.workers);
    SumOfIndicators(CountedOf, s.workers);
  }

  /** The spurious wake-ups among the steps k to m - 1. */
  function Spurious(steps: seq<Step>, k: nat, m: nat): nat
    requires k <= m <= |steps|
  {
    if k == m then 0 else Spurious(steps, k, m - 1) + if Proper(steps[m - 1]) then 0 else 1
  }

  /** The steps k to m - 1 that are noise. */
  function Total(noise: seq<nat>, k: nat, m: nat): nat
    requires k <= m <= |noise|
  {
    if k == m then 0 else Total(noise, k, m - 1) + noise[m - 1]
  }

  lemma {:induction false} TotalIsNoise(states: seq<State>, steps: seq<Step>, noise: seq<nat>, k: nat, m: nat)
    requires |states| == |steps| + 1 == |noise| + 1 && k <= m <= |steps|
    requires forall i :: 0 <= i < |steps| ==> noise[i] == NoiseOf(states[i], steps[i])
    ensures Total(noise, k, m) == Spurious(steps, k, m) + Puts(states, steps, k, m)
  {
    if k < m {
      TotalIsNoise(states, steps, noise, k, m - 1);
    }
  }

  lemma {:induction false} Telescope(measures: seq<nat>, noise: seq<nat>, k: nat, m: nat)
    requires |measures| == |noise| + 1 && k <= m <= |noise|
    requires forall i :: 0 <= i < |noise| ==> measures[i + 1] + 1 <= measures[i] + 3 * noise[i]
    ensures m - k + measures[m] <= measures[k] + 3 * Total(noise, k, m)
  {
    if k < m {
      Telescope(measures, noise, k, m - 1);
    }
  }

  /** Between two states of a run the measure pays for every step that is not noise. */
  lemma SpanIsBounded(states: seq<State>, steps: seq<Step>, n: nat, bgWriter: bool, k: nat, m: nat)
    requires IsRun(states, steps, n, bgWriter) && k <= m <= |steps|
    ensures m - k + Measure(states[m])
            <= Measure(states[k]) + 3 * (Spurious(steps, k, m) + Puts(states, steps, k, m))
  {
    var measures := seq(|states|, i requires 0 <= i < |states| => Measure(states[i]));
    var noise := seq(|steps|, i requires 0 <= i < |steps| => NoiseOf(states[i], steps[i]));
    forall i | 0 <= i < |steps| ensures measures[i + 1] + 1 <= measures[i] + 3 * noise[i] {
      RunStepMeasure(states, steps, n, bgWriter, i);
    }
    Telescope(measures, noise, k, m);
    TotalIsNoise(states, steps, noise, k, m);
  }

  /** Bounded waiting: the length of every run is bounded in terms of n and of the spurious
      wake-ups and background puts in it. */
  lemma RunsAreBounded(states: seq<State>, steps: seq<Step>, n: nat, bgWriter: bool)
    requires IsRun(states, steps, n, bgWriter)
    ensures |steps| + Measure(states[|steps|])
            <= Measure(Initial(n, bgWriter)) + 3 * (Spurious(steps, 0, |steps|) + Puts(states, steps, 0, |steps|))
  {
    SpanIsBounded(states, steps, n, bgWriter, 0, |steps|);
  }

  /** Once all the others have counted themselves done, only spurious wake-ups can delay the
      end: what is left of the run is bounded in terms of n and of their number. */
  lemma EndIsBounded(states: seq<State>, steps: seq<Step>, n: nat, bgWriter: bool, k: nat)
    requires IsRun(states, steps, n, bgWriter) && k <= |steps| && OthersCounted(states[k])
    ensures |steps| - k <= Measure(states[k]) + 3 * (Spurious(steps, k, |steps|) + 1)
  {
    SpanIsBounded(states, steps, n, bgWriter, k, |steps|);
    AtMostOneLatePut(states, steps, n, bgWriter, k, |steps|);
  }

  lemma RunStepMeasure(states: seq<State>, steps: seq<Step>, n: nat, bgWriter: bool, k: nat)
    requires IsRun(states, steps, n, bgWriter) && k < |steps|
    ensures Measure(states[k + 1]) + 1 <= Measure(states[k]) + 3 * NoiseOf(states[k], steps[k])
  {
    RunKeepsInv(states, steps, n, bgWriter, k);
    StepMeasure(states[k], steps[k]);
  }

  /** A run that cannot go on, spurious wake-ups aside, has brought RunBenchmark to its end. */
  lemma StuckMeansDone(states: seq<State>, steps: seq<Step>, n: nat, bgWriter: bool)
    requires IsRun(states, steps, n, bgWriter)
    requires forall step :: Proper(step) ==> !Enabled(states[|steps|], step)
    ensures states[|steps|].main.Reporting?
  {
    RunKeepsInv(states, steps, n, bgWriter, |steps|);
    if !states[|steps|].main.Reporting? {
      var step := NotStuck(states[|steps|]);
    }
  }
}
