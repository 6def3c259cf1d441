/**
  The Limiter of bench/util/env_posix.cc and the files it guards: NewRandomAccessFile and
  the destructors of PosixMmapReadableFile and PosixRandomAccessFile, run by any number of
  threads.

  Acquire reads the counter once without the mutex before it locks; every load, store,
  lock and unlock is a step of its own.  One limiter counts mappings, the other permanent
  descriptors.
*/
module Limiter {
  import opened Counting

  datatype Which = Mmap | Fd

  datatype AcquireStage =
    | Check                 // the unlocked read
    | WantMu
    | Inside                // locked, load next
    | Loaded(x: int)        // locked, test and store next
    | Leaving(ok: bool)     // unlock next

  datatype ReleaseStage = RWant | RInside | RLoaded(x: int) | RLeaving

  /** What a thread is doing; from Opened to Mapping and in Reading it has an open descriptor. */
  datatype Phase =
    | Idle
    | Opened
    | Acquiring(w: Which, a: AcquireStage)
    | Mapping                               // holds a mapping permit: GetFileSize, mmap
    | Releasing(w: Which, r: ReleaseStage)
    | Reading                               // Read of a file that is opened on every access

  datatype Owner = Free | By(t: nat)

  datatype Counter = Counter(allowed: int, mu: Owner, limit: int)

  /** Live files: mapped, with a permanent descriptor, and opened anew for every read. */
  datatype State = State(
    mmap: Counter, fd: Counter,
    threads: seq<Phase>,
    mmapLive: set<nat>, permLive: set<nat>, tempLive: set<nat>, nextId: nat)

  datatype Step =
    | Open(t: nat)
    | Advance(t: nat)
    | MapOk(t: nat) | MapFail(t: nat)
    | StartRead(t: nat, id: nat) | EndRead(t: nat)
    | DeleteMmap(t: nat, id: nat) | DeletePerm(t: nat, id: nat) | DeleteTemp(t: nat, id: nat)

  function Initial(mmapLimit: int, fdLimit: int, threads: nat): State {
    State(Counter(mmapLimit, Free, mmapLimit), Counter(fdLimit, Free, fdLimit),
          seq(threads, i => Idle), {}, {}, {}, 0)
  }

  function CounterOf(s: State, w: Which): Counter {
    if w == Mmap then s.mmap else s.fd
  }

  function SetCounter(s: State, w: Which, c: Counter): State {
    if w == Mmap then s.(mmap := c) else s.(fd := c)
  }

  function Live(s: State, w: Which): set<nat> {
    if w == Mmap then s.mmapLive else s.permLive
  }

  predicate Enabled(s: State, step: Step) {
    && step.t < |s.threads|
    && match step
       case Open(t) => s.threads[t] == Idle
       case Advance(t) =>
         (match s.threads[t]
          case Opened => true
          case Acquiring(w, WantMu) => CounterOf(s, w).mu == Free
          case Acquiring(_, _) => true
          case Releasing(w, RWant) => CounterOf(s, w).mu == Free
          case Releasing(_, _) => true
          case _ => false)
       case MapOk(t) => s.threads[t] == Mapping
       case MapFail(t) => s.threads[t] == Mapping
       case StartRead(t, id) => s.threads[t] == Idle && id in s.tempLive
       case EndRead(t) => s.threads[t] == Reading
       case DeleteMmap(t, id) => s.threads[t] == Idle && id in s.mmapLive
       case DeletePerm(t, id) => s.threads[t] == Idle && id in s.permLive
       case DeleteTemp(t, id) => s.threads[t] == Idle && id in s.tempLive
  }

  function To(s: State, t: nat, p: Phase): State
    requires t < |s.threads|
  {
    s.(threads := s.threads[t := p])
  }

  function Apply(s: State, step: Step): State
    requires Enabled(s, step)
  {
    match step
    case Open(t) => To(s, t, Opened)
    case Advance(t) =>
      (match s.threads[t]
       case Opened => To(s, t, Acquiring(Mmap, Check))
       case Acquiring(w, a) => ApplyAcquire(s, t, w, a)
       case Releasing(w, r) => ApplyRelease(s, t, w, r))
    case MapOk(t) => To(s, t, Idle).(mmapLive := s.mmapLive + {s.nextId}, nextId := s.nextId + 1)
    case MapFail(t) => To(s, t, Releasing(Mmap, RWant))
    case StartRead(t, _) => To(s, t, Reading)
    case EndRead(t) => To(s, t, Idle)
    case DeleteMmap(t, id) => To(s, t, Releasing(Mmap, RWant)).(mmapLive := s.mmapLive - {id})
    case DeletePerm(t, id) => To(s, t, Releasing(Fd, RWant)).(permLive := s.permLive - {id})
    case DeleteTemp(t, id) => s.(tempLive := s.tempLive - {id})
  }

  /** Acquire returned false: try a permanent descriptor, or else open on every read. */
  function Refused(s: State, t: nat, w: Which): State
    requires t < |s.threads|
  {
    if w == Mmap then To(s, t, Acquiring(Fd, Check))
    else To(s, t, Idle).(tempLive := s.tempLive + {s.nextId}, nextId := s.nextId + 1)
  }

  function Granted(s: State, t: nat, w: Which): State
    requires t < |s.threads|
  {
    if w == Mmap then To(s, t, Mapping)
    else To(s, t, Idle).(permLive := s.permLive + {s.nextId}, nextId := s.nextId + 1)
  }

  function ApplyAcquire(s: State, t: nat, w: Which, a: AcquireStage): State
    requires t < |s.threads|
  {
    var c := CounterOf(s, w);
    match a
    case Check => if c.allowed <= 0 then Refused(s, t, w) else To(s, t, Acquiring(w, WantMu))
    case WantMu => SetCounter(To(s, t, Acquiring(w, Inside)), w, c.(mu := By(t)))
    case Inside => To(s, t, Acquiring(w, Loaded(c.allowed)))
    case Loaded(x) =>
      if x <= 0 then To(s, t, Acquiring(w, Leaving(false)))
      else SetCounter(To(s, t, Acquiring(w, Leaving(true))), w, c.(allowed := x - 1))
    case Leaving(ok) =>
      var s' := SetCounter(s, w, c.(mu := Free));
      if ok then Granted(s', t, w) else Refused(s', t, w)
  }

  function ApplyRelease(s: State, t: nat, w: Which, r: ReleaseStage): State
    requires t < |s.threads|
  {
    var c := CounterOf(s, w);
    match r
    case RWant => SetCounter(To(s, t, Releasing(w, RInside)), w, c.(mu := By(t)))
    case RInside => To(s, t, Releasing(w, RLoaded(c.allowed)))
    case RLoaded(x) => SetCounter(To(s, t, Releasing(w, RLeaving)), w, c.(allowed := x + 1))
    case RLeaving => SetCounter(To(s, t, Idle), w, c.(mu := Free))
  }

  ghost predicate IsRun(states: seq<State>, steps: seq<Step>, mmapLimit: int, fdLimit: int, threads: nat) {
    && |states| == |steps| + 1
    && states[0] == Initial(mmapLimit, fdLimit, threads)
    && forall i :: 0 <= i < |steps| ==> Enabled(states[i], steps[i]) && states[i + 1] == Apply(states[i], steps[i])
  }

  // ----- The invariant -----

  /** Does a call in flight own a permit of `w`: acquired and not yet given back? */
  function Held(w: Which, p: Phase): nat {
    match p
    case Acquiring(v, Leaving(true)) => if v == w then 1 else 0
    case Mapping => if w == Mmap then 1 else 0
    case Releasing(v, r) => if v == w && r != RLeaving then 1 else 0
    case _ => 0
  }

  function TotalHeld(w: Which, threads: seq<Phase>): nat {
    Sum(HeldBy(w), threads)
  }

  function HeldBy(w: Which): Phase -> nat {
    p => Held(w, p)
  }

  lemma TotalHeldUpdate(w: Which, threads: seq<Phase>, t: nat, p: Phase)
    requires t < |threads|
    ensures TotalHeld(w, threads[t := p]) + Held(w, threads[t]) == TotalHeld(w, threads) + Held(w, p)
  {
    SumUpdate(HeldBy(w), threads, t, p);
  }

  /** Is the thread inside the mutex of `w`? */
  predicate HoldsMu(w: Which, p: Phase) {
    match p
    case Acquiring(v, a) => v == w && a != Check && a != WantMu
    case Releasing(v, r) => v == w && r != RWant
    case _ => false
  }

  /** What a thread read under the mutex is still the counter's value; a refusal under the
      mutex is still justified while the thread is inside. */
  predicate LoadIsFresh(w: Which, p: Phase, allowed: int) {
    match p
    case Acquiring(v, Loaded(x)) => v == w ==> x == allowed
    case Acquiring(v, Leaving(false)) => v == w ==> allowed <= 0
    case Releasing(v, RLoaded(x)) => v == w ==> x == allowed
    case _ => true
  }

  ghost predicate ThreadOk(s: State, w: Which, t: nat)
    requires t < |s.threads|
  {
    && (CounterOf(s, w).mu == By(t) <==> HoldsMu(w, s.threads[t]))
    && LoadIsFresh(w, s.threads[t], CounterOf(s, w).allowed)
  }

  predicate InRange(c: Counter) {
    if c.limit >= 0 then 0 <= c.allowed else c.allowed == c.limit
  }

  ghost predicate CounterOk(s: State, w: Which) {
    var c := CounterOf(s, w);
    && c.allowed + TotalHeld(w, s.threads) + |Live(s, w)| == c.limit
    && InRange(c)
    && (c.mu.By? ==> c.mu.t < |s.threads|)
    && forall t :: 0 <= t < |s.threads| ==> ThreadOk(s, w, t)
  }

  ghost predicate Inv(s: State) {
    && CounterOk(s, Mmap) && CounterOk(s, Fd)
    && IdsOk(s)
  }

  ghost predicate IdsOk(s: State) {
    forall id :: id in s.mmapLive || id in s.permLive || id in s.tempLive ==> id < s.nextId
  }

  lemma InitialInv(mmapLimit: int, fdLimit: int, threads: nat)
    ensures Inv(Initial(mmapLimit, fdLimit, threads))
  {
    SumOfZeros(HeldBy(Mmap), Initial(mmapLimit, fdLimit, threads).threads);
    SumOfZeros(HeldBy(Fd), Initial(mmapLimit, fdLimit, threads).threads);
  }

  lemma StepKeepsInv(s: State, step: Step)
    requires Inv(s) && Enabled(s, step)
    ensures Inv(Apply(s, step))
  {
    StepKeepsCounter(s, step, Mmap);
    StepKeepsCounter(s, step, Fd);
    StepKeepsIds(s, step);
  }

  lemma StepKeepsIds(s: State, step: Step)
    requires IdsOk(s) && Enabled(s, step)
    ensures IdsOk(Apply(s, step))
  {
  }

  /** What one thread's step must respect for the counter `w` to stay in order. */
  ghost predicate Respects(s: State, s': State, w: Which, t: nat)
    requires t < |s.threads|
  {
    var c, c' := CounterOf(s, w), CounterOf(s', w);
    && |s'.threads| == |s.threads| && s'.threads == s.threads[t := s'.threads[t]]
    && (c'.mu == c.mu || (c.mu == Free && c'.mu == By(t)) || (c.mu == By(t) && c'.mu == Free))
    && (c'.allowed == c.allowed || c.mu == By(t))
    && c'.limit == c.limit
    && c'.allowed + Held(w, s'.threads[t]) + |Live(s', w)| == c.allowed + Held(w, s.threads[t]) + |Live(s, w)|
    && InRange(c')
    && ThreadOk(s', w, t)
  }

  lemma RespectfulKeepsCounter(s: State, s': State, w: Which, t: nat)
    requires CounterOk(s, w) && t < |s.threads| && Respects(s, s', w, t)
    ensures CounterOk(s', w)
  {
    TotalHeldUpdate(w, s.threads, t, s'.threads[t]);
    forall u | 0 <= u < |s'.threads| ensures ThreadOk(s', w, u) {
      assert ThreadOk(s, w, u);
    }
  }

  lemma StepKeepsCounter(s: State, step: Step, w: Which)
    requires Inv(s) && Enabled(s, step)
    ensures CounterOk(Apply(s, step), w)
  {
    assert ThreadOk(s, w, step.t);
    if step.Advance? && s.threads[step.t].Acquiring? {
      AcquireRespects(s, step.t, w);
    } else if step.Advance? && s.threads[step.t].Releasing? {
      PermitsExist(s, w, step.t);
      ReleaseRespects(s, step.t, w);
    } else {
      FileRespects(s, step, w);
    }
    RespectfulKeepsCounter(s, Apply(s, step), w, step.t);
  }

  lemma PermitsExist(s: State, w: Which, t: nat)
    requires CounterOk(s, w) && t < |s.threads|
    ensures Held(w, s.threads[t]) == 1 ==> CounterOf(s, w).limit >= 0
  {
    TotalHeldUpdate(w, s.threads, t, Idle);
  }

  lemma AcquireRespects(s: State, t: nat, w: Which)
    requires InRange(CounterOf(s, w)) && Enabled(s, Advance(t)) && s.threads[t].Acquiring? && ThreadOk(s, w, t)
    requires s.nextId !in s.permLive
    ensures Respects(s, Apply(s, Advance(t)), w, t)
  {
    if s.threads[t].w == w {
      OwnAcquireRespects(s, t, w);
    }
  }

  lemma OwnAcquireRespects(s: State, t: nat, w: Which)
    requires InRange(CounterOf(s, w)) && Enabled(s, Advance(t)) && s.threads[t].Acquiring? && ThreadOk(s, w, t)
    requires s.nextId !in s.permLive && s.threads[t].w == w
    ensures Respects(s, Apply(s, Advance(t)), w, t)
  {
  }

  lemma ReleaseRespects(s: State, t: nat, w: Which)
    requires InRange(CounterOf(s, w)) && Enabled(s, Advance(t)) && s.threads[t].Releasing? && ThreadOk(s, w, t)
    requires Held(w, s.threads[t]) == 1 ==> CounterOf(s, w).limit >= 0
    ensures Respects(s, Apply(s, Advance(t)), w, t)
  {
  }

  lemma FileRespects(s: State, step: Step, w: Which)
    requires InRange(CounterOf(s, w)) && Enabled(s, step) && ThreadOk(s, w, step.t)
    requires !step.Advance? || s.threads[step.t] == Opened
    requires s.nextId !in s.mmapLive
    ensures Respects(s, Apply(s, step), w, step.t)
  {
  }

  lemma StepKeepsShape(s: State, step: Step)
    requires Enabled(s, step)
    ensures var s' := Apply(s, step);
            s'.mmap.limit == s.mmap.limit && s'.fd.limit == s.fd.limit && |s'.threads| == |s.threads|
  {
  }

  lemma {:induction false} RunKeepsInv(states: seq<State>, steps: seq<Step>, mmapLimit: int, fdLimit: int, threads: nat, k: nat)
    requires IsRun(states, steps, mmapLimit, fdLimit, threads) && k < |states|
    ensures Inv(states[k])
    ensures states[k].mmap.limit == mmapLimit && states[k].fd.limit == fdLimit && |states[k].threads| == threads
  {
    if k == 0 {
      InitialInv(mmapLimit, fdLimit, threads);
    } else {
      RunKeepsInv(states, steps, mmapLimit, fdLimit, threads, k - 1);
      StepKeepsInv(states[k - 1], steps[k - 1]);
      StepKeepsShape(states[k - 1], steps[k - 1]);
    }
  }

  // ----- The main results, for every run -----

  /** Conservation: permits left, permits of calls in flight and live files add up to the
      limit, so every success is given back exactly once; and the counter stays in range. */
  lemma Conservation(states: seq<State>, steps: seq<Step>, mmapLimit: int, fdLimit: int, threads: nat, k: nat)
    requires IsRun(states, steps, mmapLimit, fdLimit, threads) && k < |states|
    ensures states[k].mmap.allowed + TotalHeld(Mmap, states[k].threads) + |states[k].mmapLive| == mmapLimit
    ensures states[k].fd.allowed + TotalHeld(Fd, states[k].threads) + |states[k].permLive| == fdLimit
    ensures mmapLimit >= 0 ==> 0 <= states[k].mmap.allowed <= mmapLimit && |states[k].mmapLive| <= mmapLimit
    ensures fdLimit >= 0 ==> 0 <= states[k].fd.allowed <= fdLimit && |states[k].permLive| <= fdLimit
    ensures mmapLimit < 0 ==> states[k].mmapLive == {}
    ensures fdLimit < 0 ==> states[k].permLive == {}
  {
    RunKeepsInv(states, steps, mmapLimit, fdLimit, threads, k);
  }

  /** Does the call own an open descriptor? */
  function OpenFd(p: Phase): nat {
    if p == Opened || p.Acquiring? || p == Mapping || p == Reading then 1 else 0
  }

  function TotalOpen(threads: seq<Phase>): nat {
    Sum(OpenFd, threads)
  }

  /** The point of the limit: at every moment the descriptors of live files, of calls of
      NewRandomAccessFile in flight and of reads in progress number at most the limit plus
      one per thread. */
  lemma DescriptorsBounded(states: seq<State>, steps: seq<Step>, mmapLimit: int, fdLimit: int, threads: nat, k: nat)
    requires IsRun(states, steps, mmapLimit, fdLimit, threads) && k < |states|
    ensures |states[k].permLive| + TotalOpen(states[k].threads) <= threads + if fdLimit > 0 then fdLimit else 0
  {
    RunKeepsInv(states, steps, mmapLimit, fdLimit, threads, k);
    SumOfIndicators(OpenFd, states[k].threads);
  }

  // ----- A refusal means that nothing is left -----

  /** Every permit is held by a call in flight or by a live file. */
  predicate Exhausted(s: State, w: Which) {
    TotalHeld(w, s.threads) + |Live(s, w)| >= CounterOf(s, w).limit
  }

  /** Both tests of Acquire are exact: the unlocked check goes on to the mutex, and the test
      under the mutex grants, if and only if a permit is left at that moment. */
  lemma TestsAreExact(s: State, t: nat, w: Which)
    requires Inv(s) && Enabled(s, Advance(t))
    ensures s.threads[t] == Acquiring(w, Check) ==>
              (Apply(s, Advance(t)).threads[t] == Acquiring(w, WantMu) <==> !Exhausted(s, w))
    ensures s.threads[t].Acquiring? && s.threads[t].w == w && s.threads[t].a.Loaded? ==>
              && (Apply(s, Advance(t)).threads[t] == Acquiring(w, Leaving(true)) <==> !Exhausted(s, w))
              && (Apply(s, Advance(t)).threads[t] == Acquiring(w, Leaving(false)) <==> Exhausted(s, w))
    ensures s.threads[t] == Acquiring(w, Leaving(false)) ==> Exhausted(s, w)
  {
    assert CounterOk(s, w);
    assert ThreadOk(s, w, t);
  }

  /** Since state i, up to state k, thread t has been in one call of NewRandomAccessFile, and
      in state i the limiter of mappings had nothing left for it. */
  ghost predicate MappingRefused(states: seq<State>, t: nat, i: nat, k: nat) {
    && i <= k < |states|
    && Exhausted(states[i], Mmap)
    && forall m :: i <= m <= k ==> t < |states[m].threads| && states[m].threads[t].Acquiring?
  }

  lemma EntersSecond(s: State, step: Step, t: nat)
    requires Inv(s) && Enabled(s, step) && t < |s.threads|
    ensures |Apply(s, step).threads| == |s.threads|
    ensures var p, p' := s.threads[t], Apply(s, step).threads[t];
            p'.Acquiring? && p'.w == Fd && !(p.Acquiring? && p.w == Fd) ==>
              p.Acquiring? && Exhausted(s, Mmap)
  {
    if step.Advance? {
      TestsAreExact(s, step.t, Mmap);
    }
  }

  lemma {:induction false} SecondAfterFirst(states: seq<State>, steps: seq<Step>, mmapLimit: int, fdLimit: int, threads: nat,
                                            t: nat, k: nat) returns (i: nat)
    requires IsRun(states, steps, mmapLimit, fdLimit, threads) && k < |states| && t < threads
    ensures |states[k].threads| == threads
    ensures states[k].threads[t].Acquiring? && states[k].threads[t].w == Fd ==> MappingRefused(states, t, i, k)
  {
    i := 0;
    RunKeepsInv(states, steps, mmapLimit, fdLimit, threads, k);
    if k > 0 {
      RunKeepsInv(states, steps, mmapLimit, fdLimit, threads, k - 1);
      i := SecondAfterFirst(states, steps, mmapLimit, fdLimit, threads, t, k - 1);
      EntersSecond(states[k - 1], steps[k - 1], t);
      var p := states[k - 1].threads[t];
      if !(p.Acquiring? && p.w == Fd) {
        i := k - 1;
      }
      RefusalLasts(states, t, i, k);
    }
  }

  lemma RefusalLasts(states: seq<State>, t: nat, i: nat, k: nat)
    requires 0 < k < |states| && t < |states[k].threads|
    ensures MappingRefused(states, t, i, k - 1) && states[k].threads[t].Acquiring? ==> MappingRefused(states, t, i, k)
  {
  }

  lemma TempMeansRefused(s: State, step: Step)
    requires Inv(s) && Enabled(s, step) && !(Apply(s, step).tempLive <= s.tempLive)
    ensures s.threads[step.t].Acquiring? && s.threads[step.t].w == Fd && Exhausted(s, Fd)
  {
    if step.Advance? {
      TestsAreExact(s, step.t, Fd);
    }
  }

  /** In every run, a file is opened anew for every read only when there was no permit left for
      a descriptor and, earlier in the same call, none for a mapping. */
  lemma TempOnlyAfterBoth(states: seq<State>, steps: seq<Step>, mmapLimit: int, fdLimit: int, threads: nat, k: nat)
    returns (i: nat)
    requires IsRun(states, steps, mmapLimit, fdLimit, threads) && k < |steps|
    requires !(states[k + 1].tempLive <= states[k].tempLive)
    ensures Exhausted(states[k], Fd)
    ensures MappingRefused(states, steps[k].t, i, k)
  {
    RunKeepsInv(states, steps, mmapLimit, fdLimit, threads, k);
    TempMeansRefused(states[k], steps[k]);
    i := SecondAfterFirst(states, steps, mmapLimit, fdLimit, threads, steps[k].t, k);
  }

  // ----- No call is lost -----

  function Opens(step: Step): nat {
    if step.Open? then 1 else 0
  }

  function Failures(step: Step): nat {
    if step.MapFail? then 1 else 0
  }

  function Deletes(step: Step): nat {
    if step.DeleteMmap? || step.DeletePerm? || step.DeleteTemp? then 1 else 0
  }

  /** Is the thread between open and the end of NewRandomAccessFile? */
  function InCall(p: Phase): nat {
    if p == Opened || p.Acquiring? || p == Mapping then 1 else 0
  }

  function LiveFiles(s: State): nat {
    |s.mmapLive| + |s.permLive| + |s.tempLive|
  }

  /** A step changes its own thread only. */
  lemma StepIsLocal(s: State, step: Step)
    requires Enabled(s, step)
    ensures |Apply(s, step).threads| == |s.threads|
    ensures Apply(s, step).threads == s.threads[step.t := Apply(s, step).threads[step.t]]
  {
  }

  lemma StepConservesCalls(s: State, step: Step)
    requires Enabled(s, step)
    ensures var s' := Apply(s, step);
            Sum(InCall, s'.threads) + s'.nextId + Failures(step) == Sum(InCall, s.threads) + s.nextId + Opens(step)
  {
    StepIsLocal(s, step);
    CallEndsInFile(s, step);
    SumUpdate(InCall, s.threads, step.t, Apply(s, step).threads[step.t]);
  }

  lemma CallEndsInFile(s: State, step: Step)
    requires Enabled(s, step)
    ensures var s' := Apply(s, step);
            InCall(s'.threads[step.t]) + s'.nextId + Failures(step) == InCall(s.threads[step.t]) + s.nextId + Opens(step)
  {
  }

  lemma StepConservesFiles(s: State, step: Step)
    requires IdsOk(s) && Enabled(s, step)
    ensures var s' := Apply(s, step);
            LiveFiles(s') + Deletes(step) + s.nextId == LiveFiles(s) + s'.nextId
  {
    if step.Advance? {
      AdvanceConservesFiles(s, step.t);
    } else {
      assert s.nextId !in s.mmapLive;
    }
  }

  lemma AdvanceConservesFiles(s: State, t: nat)
    requires IdsOk(s) && Enabled(s, Advance(t))
    ensures LiveFiles(Apply(s, Advance(t))) + s.nextId == LiveFiles(s) + Apply(s, Advance(t)).nextId
  {
    AdvanceMakesOneFile(s, t);
    OneMore(s.permLive, s.nextId);
    OneMore(s.tempLive, s.nextId);
  }

  lemma AdvanceMakesOneFile(s: State, t: nat)
    requires Enabled(s, Advance(t))
    ensures var s' := Apply(s, Advance(t));
            && s'.mmapLive == s.mmapLive
            && (|| (s'.permLive == s.permLive && s'.tempLive == s.tempLive && s'.nextId == s.nextId)
                || (s'.permLive == s.permLive + {s.nextId} && s'.tempLive == s.tempLive && s'.nextId == s.nextId + 1)
                || (s'.permLive == s.permLive && s'.tempLive == s.tempLive + {s.nextId} && s'.nextId == s.nextId + 1))
  {
  }

  lemma OneMore(ids: set<nat>, id: nat)
    ensures id !in ids ==> |ids + {id}| == |ids| + 1
  {
  }

  /** In every run, every open ends in exactly one new file or one reported failure, unless its
      call is still in flight; and every file lives until it is deleted. */
  lemma {:induction false} CallsConserved(states: seq<State>, steps: seq<Step>, mmapLimit: int, fdLimit: int, threads: nat, k: nat)
    requires IsRun(states, steps, mmapLimit, fdLimit, threads) && k <= |steps|
    ensures Sum(Opens, steps[..k]) == LiveFiles(states[k]) + Sum(Deletes, steps[..k]) + Sum(Failures, steps[..k])
                                      + Sum(InCall, states[k].threads)
    ensures states[k].nextId == LiveFiles(states[k]) + Sum(Deletes, steps[..k])
  {
    if k == 0 {
      SumOfZeros(InCall, states[0].threads);
    } else {
      CallsConserved(states, steps, mmapLimit, fdLimit, threads, k - 1);
      RunKeepsInv(states, steps, mmapLimit, fdLimit, threads, k - 1);
      StepConservesCalls(states[k - 1], steps[k - 1]);
      StepConservesFiles(states[k - 1], steps[k - 1]);
      SumPrefix(Opens, steps, k);
      SumPrefix(Failures, steps, k);
      SumPrefix(Deletes, steps, k);
    }
  }

  // ----- Progress -----

  /** The steps a thread has at most to take until its call is over. */
  function Rank(p: Phase): nat {
    match p
    case Idle => 0
    case Reading => 1
    case Releasing(_, r) => (match r case RWant => 4 case RInside => 3 case RLoaded(_) => 2 case RLeaving => 1)
    case Mapping => 5
    case Acquiring(w, a) =>
      (match a case Check => 5 case WantMu => 4 case Inside => 3 case Loaded(_) => 2 case Leaving(_) => 1)
      + if w == Mmap then 5 else 0
    case Opened => 11
  }

  /** The steps that begin something. */
  predicate Begins(step: Step) {
    step.Open? || step.StartRead? || step.DeleteMmap? || step.DeletePerm? || step.DeleteTemp?
  }

  function Credit(step: Step): nat {
    if Begins(step) then 12 else 0
  }

  lemma StepRank(s: State, step: Step)
    requires Enabled(s, step)
    ensures Sum(Rank, Apply(s, step).threads) + 1 <= Sum(Rank, s.threads) + Credit(step)
  {
    StepIsLocal(s, step);
    RankDrops(s, step);
    SumUpdate(Rank, s.threads, step.t, Apply(s, step).threads[step.t]);
  }

  lemma RankDrops(s: State, step: Step)
    requires Enabled(s, step)
    ensures Rank(Apply(s, step).threads[step.t]) + 1 <= Rank(s.threads[step.t]) + Credit(step)
  {
  }

  /** Every run is bounded by what its threads begin: no call goes on for ever. */
  lemma {:induction false} RunsAreBounded(states: seq<State>, steps: seq<Step>, mmapLimit: int, fdLimit: int, threads: nat, k: nat)
    requires IsRun(states, steps, mmapLimit, fdLimit, threads) && k <= |steps|
    ensures k + Sum(Rank, states[k].threads) <= Sum(Credit, steps[..k])
  {
    if k == 0 {
      SumOfZeros(Rank, states[0].threads);
    } else {
      RunsAreBounded(states, steps, mmapLimit, fdLimit, threads, k - 1);
      StepRank(states[k - 1], steps[k - 1]);
      SumPrefix(Credit, steps, k);
    }
  }

  /** While a call is in flight some thread can go on: the two mutexes do not block each other. */
  lemma NotStuck(s: State, t: nat) returns (step: Step)
    requires Inv(s) && t < |s.threads| && s.threads[t] != Idle
    ensures Enabled(s, step) && !Begins(step)
  {
    var p := s.threads[t];
    if p == Reading {
      step := EndRead(t);
    } else if p == Mapping {
      step := MapOk(t);
    } else if Enabled(s, Advance(t)) {
      step := Advance(t);
    } else {
      var w := p.w;
      assert CounterOk(s, w);
      assert ThreadOk(s, w, CounterOf(s, w).mu.t);
      step := Advance(CounterOf(s, w).mu.t);
    }
  }
}
