/**
  The background work queue of bench/util/env_posix.cc: Schedule, called by any number of
  threads, and BGThread, as a step system over one mutex and one condition variable.

  Schedule signals before it pushes, and only when the queue is empty; that no wake-up is
  lost rests on the mutex being held from the signal to the push.
*/
module BackgroundQueue {
  import opened Counting

  /** Items are named by numbers: a function pointer and its argument. */
  type Item = nat

  /** A caller of Schedule; from Entered to Pushed it holds the mutex. */
  datatype Caller =
    | Outside
    | Want(item: Item)        // at the lock
    | Entered(item: Item)     // start the background thread if necessary
    | Started(item: Item)     // signal if the queue is empty
    | Signalled(item: Item)   // push
    | Pushed                  // unlock

  /** A thread running BGThread; Testing and Popped hold the mutex. */
  datatype Consumer =
    | WantLock
    | Testing                 // while (queue_.empty()) wait
    | Asleep
    | Woken
    | Popped(item: Item)
    | Calling(item: Item)

  datatype Holder = Free | ByCaller(i: nat) | ByConsumer(j: nat)

  /** `scheduled` and `executed` record the pushes and the finished calls. */
  datatype State = State(
    mu: Holder, started: bool, queue: seq<Item>,
    callers: seq<Caller>, consumers: seq<Consumer>,
    scheduled: seq<Item>, executed: seq<Item>)

  datatype Step =
    | Call(i: nat, item: Item)
    | Caller(i: nat)
    | Signal(i: nat, woken: set<nat>)
    | Consume(j: nat)
    | Spurious(j: nat)

  function Initial(callers: nat): State {
    State(Free, false, [], seq(callers, i => Outside), [], [], [])
  }

  /** pthread_cond_signal wakes at least one sleeping thread, if there is one. */
  predicate SignalWakes(consumers: seq<Consumer>, woken: set<nat>) {
    && (forall j :: j in woken ==> j < |consumers| && consumers[j] == Asleep)
    && (woken == {} ==> forall j :: 0 <= j < |consumers| ==> consumers[j] != Asleep)
  }

  predicate Enabled(s: State, step: Step) {
    match step
    case Call(i, _) => i < |s.callers| && s.callers[i] == Outside
    case Caller(i) =>
      i < |s.callers| && s.callers[i] != Outside && (s.callers[i].Want? ==> s.mu == Free)
      && (s.callers[i].Started? ==> s.queue != [])
    case Signal(i, woken) =>
      i < |s.callers| && s.callers[i].Started? && s.queue == [] && SignalWakes(s.consumers, woken)
    case Consume(j) =>
      j < |s.consumers| && s.consumers[j] != Asleep
      && (s.consumers[j] == WantLock || s.consumers[j] == Woken ==> s.mu == Free)
    case Spurious(j) => j < |s.consumers| && s.consumers[j] == Asleep
  }

  function Apply(s: State, step: Step): State
    requires Enabled(s, step)
  {
    match step
    case Call(i, item) => s.(callers := s.callers[i := Want(item)])
    case Caller(i) => ApplyCaller(s, i)
    case Signal(i, woken) =>
      s.(callers := s.callers[i := Signalled(s.callers[i].item)],
         consumers := seq(|s.consumers|, j requires 0 <= j < |s.consumers| =>
                            if j in woken then Woken else s.consumers[j]))
    case Consume(j) => ApplyConsumer(s, j)
    case Spurious(j) => s.(consumers := s.consumers[j := Woken])
  }

  function ApplyCaller(s: State, i: nat): State
    requires Enabled(s, Caller(i))
  {
    match s.callers[i]
    case Want(item) => s.(callers := s.callers[i := Entered(item)], mu := ByCaller(i))
    case Entered(item) =>
      var s' := s.(callers := s.callers[i := Started(item)]);
      if s.started then s' else s'.(started := true, consumers := s.consumers + [WantLock])
    case Started(item) => s.(callers := s.callers[i := Signalled(item)])
    case Signalled(item) =>
      s.(callers := s.callers[i := Pushed], queue := s.queue + [item], scheduled := s.scheduled + [item])
    case Pushed => s.(callers := s.callers[i := Outside], mu := Free)
  }

  function ApplyConsumer(s: State, j: nat): State
    requires Enabled(s, Consume(j))
  {
    match s.consumers[j]
    case WantLock | Woken => s.(consumers := s.consumers[j := Testing], mu := ByConsumer(j))
    case Testing =>
      if s.queue == [] then s.(consumers := s.consumers[j := Asleep], mu := Free)
      else s.(consumers := s.consumers[j := Popped(s.queue[0])], queue := s.queue[1..])
    case Popped(item) => s.(consumers := s.consumers[j := Calling(item)], mu := Free)
    case Calling(item) => s.(consumers := s.consumers[j := WantLock], executed := s.executed + [item])
  }

  ghost predicate IsRun(states: seq<State>, steps: seq<Step>, callers: nat) {
    && |states| == |steps| + 1
    && states[0] == Initial(callers)
    && forall i :: 0 <= i < |steps| ==> Enabled(states[i], steps[i]) && states[i + 1] == Apply(states[i], steps[i])
  }

  // ----- The invariant -----

  /** The items popped whose calls have not returned, over all consumers. */
  function InFlight(consumers: seq<Consumer>): seq<Item> {
    if consumers == [] then []
    else
      (match consumers[0]
       case Popped(item) => [item]
       case Calling(item) => [item]
       case _ => []) + InFlight(consumers[1..])
  }

  predicate CallerHolds(c: Caller) {
    c.Entered? || c.Started? || c.Signalled? || c.Pushed?
  }

  predicate ConsumerHolds(c: Consumer) {
    c == Testing || c.Popped?
  }

  ghost predicate CallerOk(s: State, i: nat)
    requires i < |s.callers|
  {
    var c := s.callers[i];
    && (s.mu == ByCaller(i) <==> CallerHolds(c))
    && (c.Started? || c.Signalled? || c.Pushed? ==> s.started)
    // Between the signal and the push nobody is asleep on an empty queue.
    && (c.Signalled? ==> Asleep !in s.consumers)
  }

  ghost predicate Inv(s: State) {
    && |s.consumers| == (if s.started then 1 else 0)
    && (forall i :: 0 <= i < |s.callers| ==> CallerOk(s, i))
    && (forall j :: 0 <= j < |s.consumers| ==> (s.mu == ByConsumer(j) <==> ConsumerHolds(s.consumers[j])))
    && (s.mu.ByCaller? ==> s.mu.i < |s.callers|)
    && (s.mu.ByConsumer? ==> s.mu.j < |s.consumers|)
    && (Asleep in s.consumers ==> s.queue == [])
    && (s.queue != [] ==> s.started)
    && s.scheduled == s.executed + InFlight(s.consumers) + s.queue
  }

  lemma InitialInv(callers: nat)
    ensures Inv(Initial(callers))
  {
  }

  lemma CallerKeepsInv(s: State, i: nat)
    requires Inv(s) && Enabled(s, Caller(i))
    ensures Inv(ApplyCaller(s, i))
  {
    var s' := ApplyCaller(s, i);
    assert CallerOk(s, i);
    forall k | 0 <= k < |s'.callers| ensures CallerOk(s', k) {
      assert CallerOk(s, k);
    }
  }

  lemma SignalKeepsInv(s: State, i: nat, woken: set<nat>)
    requires Inv(s) && Enabled(s, Signal(i, woken))
    ensures Inv(Apply(s, Signal(i, woken)))
  {
    var s' := Apply(s, Signal(i, woken));
    assert CallerOk(s, i);
    assert s.consumers[1..] == [] && s'.consumers[1..] == [];
    assert InFlight(s'.consumers) == InFlight(s.consumers);
    assert Asleep !in s'.consumers;
    forall k | 0 <= k < |s'.callers| ensures CallerOk(s', k) {
      assert CallerOk(s, k);
    }
  }

  lemma ConsumerKeepsInv(s: State, j: nat)
    requires Inv(s) && Enabled(s, Consume(j))
    ensures Inv(ApplyConsumer(s, j))
  {
    var s' := ApplyConsumer(s, j);
    assert j == 0 && |s'.consumers| == 1;
    forall k | 0 <= k < |s'.callers| ensures CallerOk(s', k) {
      assert CallerOk(s, k);
    }
  }

  lemma StepKeepsInv(s: State, step: Step)
    requires Inv(s) && Enabled(s, step)
    ensures Inv(Apply(s, step))
  {
    match step
    case Caller(i) => CallerKeepsInv(s, i);
    case Signal(i, woken) => SignalKeepsInv(s, i, woken);
    case Consume(j) => ConsumerKeepsInv(s, j);
    case _ =>
      var s' := Apply(s, step);
      forall k | 0 <= k < |s'.callers| ensures CallerOk(s', k) {
        assert CallerOk(s, k);
      }
  }

  lemma {:induction false} RunKeepsInv(states: seq<State>, steps: seq<Step>, callers: nat, k: nat)
    requires IsRun(states, steps, callers) && k < |states|
    ensures Inv(states[k])
  {
    if k == 0 {
      InitialInv(callers);
    } else {
      RunKeepsInv(states, steps, callers, k - 1);
      StepKeepsInv(states[k - 1], steps[k - 1]);
    }
  }

  // ----- The main results, for every run -----

  /** Every item is executed exactly once and in the order of the pushes, there is at most
      one background thread, and it never sleeps while there is work. */
  lemma FifoExactlyOnce(states: seq<State>, steps: seq<Step>, callers: nat, k: nat)
    requires IsRun(states, steps, callers) && k < |states|
    ensures states[k].scheduled == states[k].executed + InFlight(states[k].consumers) + states[k].queue
    ensures |states[k].consumers| <= 1 && |InFlight(states[k].consumers)| <= 1
    ensures Asleep in states[k].consumers ==> states[k].queue == [] && states[k].executed == states[k].scheduled
  {
    RunKeepsInv(states, steps, callers, k);
  }

  /** While there is work, some thread that holds the mutex or the background thread itself
      can move: no lost wake-up, and no deadlock. */
  lemma WorkIsNotStuck(s: State) returns (step: Step)
    requires Inv(s) && s.queue != []
    ensures Enabled(s, step) && !step.Spurious? && !step.Call?
  {
    if s.mu.ByCaller? {
      assert CallerOk(s, s.mu.i);
      step := Caller(s.mu.i);
    } else {
      assert s.consumers[0] in s.consumers;
      step := Consume(0);
    }
  }

  /** How many steps the background thread is away from taking the next item. */
  function Distance(c: Consumer): nat {
    match c
    case Testing => 1
    case WantLock => 2
    case Woken => 2
    case Calling(_) => 3
    case Popped(_) => 4
    case Asleep => 3
  }

  /** While there is work, every step of the background thread brings it nearer to the next
      item or takes it, and no step of any other thread sets it back or reorders the queue. */
  lemma WorkAdvances(s: State, step: Step)
    requires Inv(s) && s.queue != [] && Enabled(s, step)
    ensures var s' := Apply(s, step);
            && |s.consumers| == |s'.consumers| == 1
            && (step.Consume? ==>
                  || (s'.queue == s.queue && Distance(s'.consumers[0]) < Distance(s.consumers[0]))
                  || (s'.queue == s.queue[1..] && s'.consumers[0] == Popped(s.queue[0])))
            && (!step.Consume? ==> s.queue <= s'.queue && Distance(s'.consumers[0]) == Distance(s.consumers[0]))
  {
    assert s.consumers[0] in s.consumers;
    if step.Caller? {
      assert CallerOk(s, step.i);
    }
  }

  // ----- Nothing called is lost -----

  /** Does the step call Schedule with the item x? */
  function Calls(x: Item): Step -> nat {
    (step: Step) => if step.Call? && step.item == x then 1 else 0
  }

  function Is(x: Item): Item -> nat {
    (y: Item) => if y == x then 1 else 0
  }

  /** Has the call still to push the item x? */
  function HasToPush(x: Item): Caller -> nat {
    (c: Caller) => if (c.Want? || c.Entered? || c.Started? || c.Signalled?) && c.item == x then 1 else 0
  }

  lemma StepAccounts(s: State, step: Step, x: Item)
    requires Enabled(s, step)
    ensures var s' := Apply(s, step);
            Sum(Is(x), s'.scheduled) + Sum(HasToPush(x), s'.callers)
            == Sum(Is(x), s.scheduled) + Sum(HasToPush(x), s.callers) + Calls(x)(step)
  {
    match step
    case Call(i, item) => MoveAccounts(s, i, Want(item), x);
    case Signal(i, _) => MoveAccounts(s, i, Signalled(s.callers[i].item), x);
    case Caller(i) => CallerAccounts(s, i, x);
    case _ =>
  }

  lemma MoveAccounts(s: State, i: nat, c: Caller, x: Item)
    requires i < |s.callers|
    ensures Sum(HasToPush(x), s.callers[i := c]) + HasToPush(x)(s.callers[i]) == Sum(HasToPush(x), s.callers) + HasToPush(x)(c)
  {
    SumUpdate(HasToPush(x), s.callers, i, c);
  }

  lemma CallerAccounts(s: State, i: nat, x: Item)
    requires Enabled(s, Caller(i))
    ensures var s' := ApplyCaller(s, i);
            Sum(Is(x), s'.scheduled) + Sum(HasToPush(x), s'.callers)
            == Sum(Is(x), s.scheduled) + Sum(HasToPush(x), s.callers)
  {
    var s' := ApplyCaller(s, i);
    assert s'.callers == s.callers[i := s'.callers[i]];
    MoveAccounts(s, i, s'.callers[i], x);
    if s.callers[i].Signalled? {
      SumAppend(Is(x), s.scheduled, s.callers[i].item);
    }
  }

  /** In every run, every item was called as often as it was scheduled or still has to be
      pushed by a call in flight: none is lost, none is pushed twice. */
  lemma {:induction false} NothingLost(states: seq<State>, steps: seq<Step>, callers: nat, k: nat, x: Item)
    requires IsRun(states, steps, callers) && k <= |steps|
    ensures Sum(Calls(x), steps[..k]) == Sum(Is(x), states[k].scheduled) + Sum(HasToPush(x), states[k].callers)
  {
    if k == 0 {
      SumOfZeros(HasToPush(x), states[0].callers);
    } else {
      NothingLost(states, steps, callers, k - 1, x);
      StepAccounts(states[k - 1], steps[k - 1], x);
      SumPrefix(Calls(x), steps, k);
    }
  }

  // ----- Progress -----

  function CallerRank(c: Caller): nat {
    match c
    case Outside => 0
    case Want(_) => 13
    case Entered(_) => 12
    case Started(_) => 9
    case Signalled(_) => 6
    case Pushed => 1
  }

  function ConsumerRank(c: Consumer): nat {
    match c
    case Asleep => 0
    case Testing => 1
    case WantLock => 2
    case Woken => 2
    case Calling(_) => 3
    case Popped(_) => 4
  }

  /** The steps that calls, items and consumers still have to take. */
  function Measure(s: State): nat {
    Sum(CallerRank, s.callers) + Sum(ConsumerRank, s.consumers) + 4 * |s.queue|
  }

  /** What a step may add to the measure, the step itself included. */
  function Credit(step: Step): nat {
    if step.Call? then 14 else if step.Spurious? then 3 else 0
  }

  lemma StepMeasure(s: State, step: Step)
    requires Inv(s) && Enabled(s, step)
    ensures Measure(Apply(s, step)) + 1 <= Measure(s) + Credit(step)
  {
    match step
    case Consume(j) => ConsumerMeasure(s, j);
    case Spurious(j) => SumUpdate(ConsumerRank, s.consumers, j, Woken);
    case Call(i, item) => SumUpdate(CallerRank, s.callers, i, Want(item));
    case _ => CallerMeasure(s, step);
  }

  lemma ConsumerMeasure(s: State, j: nat)
    requires Enabled(s, Consume(j))
    ensures Measure(ApplyConsumer(s, j)) < Measure(s)
  {
    var s' := ApplyConsumer(s, j);
    SumUpdate(ConsumerRank, s.consumers, j, s'.consumers[j]);
    assert s'.consumers == s.consumers[j := s'.consumers[j]];
  }

  lemma CallerMeasure(s: State, step: Step)
    requires Inv(s) && Enabled(s, step) && (step.Caller? || step.Signal?)
    ensures Measure(Apply(s, step)) < Measure(s)
  {
    var s' := Apply(s, step);
    CallerDrops(s, step);
    SumUpdate(CallerRank, s.callers, step.i, s'.callers[step.i]);
    ConsumersRise(s, step);
  }

  /** A caller's rank pays for its push and for starting or waking the background thread. */
  lemma CallerDrops(s: State, step: Step)
    requires Enabled(s, step) && (step.Caller? || step.Signal?)
    ensures var s' := Apply(s, step);
            && s'.callers == s.callers[step.i := s'.callers[step.i]]
            && CallerRank(s'.callers[step.i]) + 4 * |s'.queue| + Stirs(s, step) < CallerRank(s.callers[step.i]) + 4 * |s.queue|
  {
    if step.Caller? {
      assert ApplyCaller(s, step.i).callers == s.callers[step.i := ApplyCaller(s, step.i).callers[step.i]];
    }
  }

  /** What starting or waking the background thread adds to its rank. */
  function Stirs(s: State, step: Step): nat
    requires Enabled(s, step)
  {
    if step.Signal? || (step.Caller? && s.callers[step.i].Entered?) then 2 else 0
  }

  lemma ConsumersRise(s: State, step: Step)
    requires Inv(s) && Enabled(s, step) && (step.Caller? || step.Signal?)
    ensures Sum(ConsumerRank, Apply(s, step).consumers) <= Sum(ConsumerRank, s.consumers) + Stirs(s, step)
  {
    var s' := Apply(s, step);
    if step.Signal? {
      SumPointwise(ConsumerRank, s.consumers, s'.consumers, 2);
    } else if s'.consumers != s.consumers {
      SumAppend(ConsumerRank, s.consumers, WantLock);
    }
  }

  /** Every run is bounded by its calls and its spurious wake-ups: Schedule always returns, and
      the background thread gets through the queue. */
  lemma {:induction false} RunsAreBounded(states: seq<State>, steps: seq<Step>, callers: nat, k: nat)
    requires IsRun(states, steps, callers) && k <= |steps|
    ensures k + Measure(states[k]) <= Sum(Credit, steps[..k])
  {
    if k == 0 {
      SumOfZeros(CallerRank, states[0].callers);
    } else {
      RunsAreBounded(states, steps, callers, k - 1);
      RunKeepsInv(states, steps, callers, k - 1);
      StepMeasure(states[k - 1], steps[k - 1]);
      SumPrefix(Credit, steps, k);
    }
  }

  predicate Proper(step: Step) {
    !step.Call? && !step.Spurious?
  }

  /** Nothing is left to do. */
  ghost predicate Drained(s: State) {
    && (forall i :: 0 <= i < |s.callers| ==> s.callers[i].Outside?)
    && s.queue == [] && InFlight(s.consumers) == []
  }

  lemma HolderCanMove(s: State) returns (step: Step)
    requires Inv(s) && !s.mu.Free?
    ensures Proper(step) && Enabled(s, step)
  {
    if s.mu.ByConsumer? {
      step := Consume(s.mu.j);
    } else {
      var i := s.mu.i;
      assert CallerOk(s, i);
      if s.callers[i].Started? && s.queue == [] {
        var woken := set j: nat | j < |s.consumers| && s.consumers[j] == Asleep;
        assert forall j: nat :: j < |s.consumers| && s.consumers[j] == Asleep ==> j in woken;
        step := Signal(i, woken);
      } else {
        step := Caller(i);
      }
    }
  }

  lemma SleeperHasNothing(consumers: seq<Consumer>)
    ensures consumers == [Asleep] ==> InFlight(consumers) == []
  {
  }

  /** Until everything is done some thread can move, without a new call or a spurious wake-up. */
  lemma NotStuck(s: State) returns (step: Step)
    requires Inv(s) && !Drained(s)
    ensures Proper(step) && Enabled(s, step)
  {
    if !s.mu.Free? {
      step := HolderCanMove(s);
    } else if i :| 0 <= i < |s.callers| && !s.callers[i].Outside? {
      assert CallerOk(s, i);
      step := Caller(i);
    } else {
      SleeperHasNothing(s.consumers);
      assert s.consumers[0] in s.consumers;
      step := Consume(0);
    }
  }

  lemma DrainedIsExecuted(states: seq<State>, steps: seq<Step>, callers: nat, x: Item)
    requires IsRun(states, steps, callers) && Drained(states[|steps|])
    ensures states[|steps|].executed == states[|steps|].scheduled
    ensures Sum(Is(x), states[|steps|].executed) == Sum(Calls(x), steps)
  {
    FifoExactlyOnce(states, steps, callers, |steps|);
    NothingLost(states, steps, callers, |steps|, x);
    SumOfZeros(HasToPush(x), states[|steps|].callers);
    assert steps[..|steps|] == steps;
  }

  /** A run that cannot go on by itself has executed every item as often as it was called, in
      the order of the pushes. */
  lemma StuckMeansExecuted(states: seq<State>, steps: seq<Step>, callers: nat, x: Item)
    requires IsRun(states, steps, callers)
    requires forall step :: Proper(step) ==> !Enabled(states[|steps|], step)
    ensures states[|steps|].executed == states[|steps|].scheduled
    ensures Sum(Is(x), states[|steps|].executed) == Sum(Calls(x), steps)
  {
    RunKeepsInv(states, steps, callers, |steps|);
    if !Drained(states[|steps|]) {
      var step := NotStuck(states[|steps|]);
    }
    DrainedIsExecuted(states, steps, callers, x);
  }
}
