/**
  The crash-consistent append of example/linked_list.c.

  Persistent memory is a map from words to values, kept twice: `vol` is what the
  processor sees, `per` is what survives a crash.  A store changes `vol` only; any
  set of words may be written back to `per` at any moment.  An undo-log transaction
  snapshots words (TX_ADD) and allocates nodes (TX_ZNEW); commit writes the
  snapshotted and the new words back and then retires the log; recovery restores
  the snapshots.  The program of the source is one step per statement, and a crash
  may strike between any two steps, also during an abort and during recovery.
*/
module PersistentList {

  /** One word of the root object or of a list element.  A pointer is the identity
      of an element, and 0 is the null object. */
  datatype Loc = RootHead | RootTail | RootNum | NodeVal(id: int) | NodeNext(id: int)

  type Memory = map<Loc, int>

  const NULL_NODE := 0
  const APPENDED_VALUE := 100

  function RootWords(): set<Loc> {
    {RootHead, RootTail, RootNum}
  }

  function NodeWords(id: int): set<Loc> {
    {NodeVal(id), NodeNext(id)}
  }

  /** A word never written reads as zero. */
  function Get(m: Memory, l: Loc): int {
    if l in m then m[l] else 0
  }

  /** The current values of the words `ls`. */
  function Values(m: Memory, ls: set<Loc>): Memory {
    map l | l in ls :: Get(m, l)
  }

  // ----- The list stored in a memory image -----

  /** `chain` are the elements of the list rooted in `m`, in order, and `vals` their values. */
  ghost predicate ListAt(m: Memory, chain: seq<int>, vals: seq<int>) {
    && |chain| == |vals|
    && NULL_NODE !in chain
    && (forall i, j :: 0 <= i < j < |chain| ==> chain[i] != chain[j])
    && Get(m, RootHead) == (if chain == [] then NULL_NODE else chain[0])
    && Get(m, RootTail) == (if chain == [] then NULL_NODE else chain[|chain| - 1])
    && Get(m, RootNum) == |chain|
    && (forall i :: 0 <= i < |chain| ==> Get(m, NodeVal(chain[i])) == vals[i])
    && (forall i :: 0 <= i < |chain| ==>
          Get(m, NodeNext(chain[i])) == if i + 1 < |chain| then chain[i + 1] else NULL_NODE)
  }

  function NodesOf(chain: seq<int>): set<int> {
    set id | id in chain
  }

  /** The words that make up a list with elements `nodes`. */
  predicate InList(nodes: set<int>, l: Loc) {
    match l
    case NodeVal(id) => id in nodes
    case NodeNext(id) => id in nodes
    case _ => true
  }

  ghost predicate Agree(m: Memory, m': Memory, nodes: set<int>) {
    forall l :: InList(nodes, l) ==> Get(m, l) == Get(m', l)
  }

  lemma ListFrame(m: Memory, m': Memory, chain: seq<int>, vals: seq<int>)
    requires ListAt(m, chain, vals) && Agree(m, m', NodesOf(chain))
    ensures ListAt(m', chain, vals)
  {
    var nodes := NodesOf(chain);
    assert InList(nodes, RootHead) && InList(nodes, RootTail) && InList(nodes, RootNum);
    forall i | 0 <= i < |chain|
      ensures Get(m', NodeVal(chain[i])) == vals[i]
      ensures Get(m', NodeNext(chain[i])) == Get(m, NodeNext(chain[i]))
    {
      assert chain[i] in nodes;
      assert InList(nodes, NodeVal(chain[i])) && InList(nodes, NodeNext(chain[i]));
    }
  }

  /** A memory image holds at most one list: what recovery yields is determined. */
  lemma ListUnique(m: Memory, chain: seq<int>, vals: seq<int>, chain': seq<int>, vals': seq<int>)
    requires ListAt(m, chain, vals) && ListAt(m, chain', vals')
    ensures chain == chain' && vals == vals'
  {
    assert |chain| == |chain'|;
    SameUpTo(m, chain, vals, chain', vals', |chain|);
    assert chain == chain[..|chain|] && chain' == chain'[..|chain|];
    forall i | 0 <= i < |vals| ensures vals[i] == vals'[i] {
      assert Get(m, NodeVal(chain[i])) == vals[i];
      assert Get(m, NodeVal(chain'[i])) == vals'[i];
    }
  }

  lemma {:induction false} SameUpTo(m: Memory, chain: seq<int>, vals: seq<int>, chain': seq<int>, vals': seq<int>, k: nat)
    requires ListAt(m, chain, vals) && ListAt(m, chain', vals') && k <= |chain|
    ensures |chain| == |chain'| && chain[..k] == chain'[..k]
  {
    if k > 0 {
      SameUpTo(m, chain, vals, chain', vals', k - 1);
      if k > 1 {
        assert chain[k - 2] == chain[..k - 1][k - 2] == chain'[..k - 1][k - 2] == chain'[k - 2];
        assert Get(m, NodeNext(chain[k - 2])) == chain[k - 1];
        assert Get(m, NodeNext(chain'[k - 2])) == chain'[k - 1];
      }
      assert chain[k - 1] == chain'[k - 1];
      assert chain[..k] == chain[..k - 1] + [chain[k - 1]];
      assert chain'[..k] == chain'[..k - 1] + [chain'[k - 1]];
    }
  }

  /** The scan loop: on a list it terminates and visits the values in append order. */
  method Scan(m: Memory, ghost chain: seq<int>, ghost vals: seq<int>) returns (visited: seq<int>)
    requires ListAt(m, chain, vals)
    ensures visited == vals
  {
    visited := [];
    var tmp := Get(m, RootHead);
    ghost var i := 0;
    while tmp != NULL_NODE
      invariant 0 <= i <= |chain|
      invariant tmp == if i < |chain| then chain[i] else NULL_NODE
      invariant visited == vals[..i]
      decreases |chain| - i
    {
      visited := visited + [Get(m, NodeVal(tmp))];
      tmp := Get(m, NodeNext(tmp));
      i := i + 1;
    }
  }

  // ----- The program as a step system -----

  datatype Pc =
    | Idle                                          // no transaction, list readable
    | Begun | GotTail | Allocated | Valued          // lines 68-78
    | RootLogged | TailLogged                       // lines 82-86
    | Linked | TailMoved | Counted                  // lines 88-97
    | Flushed                                       // commit wrote everything back
    | Aborting | Undone                             // a call inside the transaction failed
    | Crashed | Replayed                            // recovery when the pool is reopened

  datatype State = State(
    pc: Pc,
    vol: Memory, per: Memory,
    log: Memory,           // undo snapshots, durable until retired
    newNodes: set<int>,       // elements allocated by the open transaction
    live: set<int>,        // elements durably allocated
    tail: int, node: int)  // the program's locals

  datatype Step =
    | Begin | ReadTail | ZNew(id: int) | SetValue
    | AddRoot | AddTail | LinkToTail | LinkToHead | MoveTail | CountUp
    | CommitFlush | Retire
    | Fail | UndoAll | AbortRetire
    | WriteBack(ls: set<Loc>)
    | Crash | Replay(ls: set<Loc>) | ReplayAll | RecoveryRetire

  /** The state after POBJ_ROOT made a zeroed root in a new pool. */
  const NEW_POOL: State := State(Idle, map[], map[], map[], {}, {}, NULL_NODE, NULL_NODE)

  predicate Enabled(s: State, step: Step) {
    match step
    case Begin => s.pc.Idle?
    case ReadTail => s.pc.Begun?
    case ZNew(id) => s.pc.GotTail? && id != NULL_NODE && id !in s.live
    case SetValue => s.pc.Allocated?
    case AddRoot => s.pc.Valued?
    case AddTail => s.pc.RootLogged? && s.tail != NULL_NODE
    case LinkToTail => s.pc.TailLogged?
    case LinkToHead => s.pc.RootLogged? && s.tail == NULL_NODE
    case MoveTail => s.pc.Linked?
    case CountUp => s.pc.TailMoved?
    case CommitFlush => s.pc.Counted?
    case Retire => s.pc.Flushed?
    // TX_ZNEW and TX_ADD are the calls that can fail and abort the transaction.
    case Fail => s.pc.GotTail? || s.pc.Valued? || (s.pc.RootLogged? && s.tail != NULL_NODE)
    case UndoAll => s.pc.Aborting?
    case AbortRetire => s.pc.Undone?
    case WriteBack(_) => true
    case Crash => true
    case Replay(_) => s.pc.Crashed?
    case ReplayAll => s.pc.Crashed?
    case RecoveryRetire => s.pc.Replayed?
  }

  /** TX_ADD: snapshot the words not snapshotted before; durable when the call returns. */
  function Snapshot(s: State, ls: set<Loc>): Memory {
    Values(s.vol, ls) + s.log
  }

  /** The words that commit writes back: every snapshotted range and every new object. */
  function CommitRange(s: State): set<Loc> {
    s.log.Keys + (set id | id in s.newNodes :: NodeVal(id)) + (set id | id in s.newNodes :: NodeNext(id))
  }

  function Store(s: State, l: Loc, v: int, pc: Pc): State {
    s.(vol := s.vol[l := v], pc := pc)
  }

  function Apply(s: State, step: Step): State
    requires Enabled(s, step)
  {
    match step
    case Begin => s.(pc := Begun)
    case ReadTail => s.(tail := Get(s.vol, RootTail), pc := GotTail)
    case ZNew(id) =>
      s.(node := id, newNodes := s.newNodes + {id}, vol := s.vol[NodeVal(id) := 0][NodeNext(id) := 0], pc := Allocated)
    case SetValue => Store(s, NodeVal(s.node), APPENDED_VALUE, Valued)
    case AddRoot => s.(log := Snapshot(s, RootWords()), pc := RootLogged)
    case AddTail => s.(log := Snapshot(s, NodeWords(s.tail)), pc := TailLogged)
    case LinkToTail => Store(s, NodeNext(s.tail), s.node, Linked)
    case LinkToHead => Store(s, RootHead, s.node, Linked)
    case MoveTail => Store(s, RootTail, s.node, TailMoved)
    case CountUp => Store(s, RootNum, Get(s.vol, RootNum) + 1, Counted)
    case CommitFlush => s.(per := s.per + Values(s.vol, CommitRange(s)), pc := Flushed)
    case Retire => s.(log := map[], live := s.live + s.newNodes, newNodes := {}, pc := Idle)
    case Fail => s.(pc := Aborting)
    case UndoAll => s.(vol := s.vol + s.log, per := s.per + s.log, pc := Undone)
    case AbortRetire => s.(log := map[], newNodes := {}, pc := Idle)
    case WriteBack(ls) => s.(per := s.per + Values(s.vol, ls))
    case Crash => s.(vol := s.per, pc := Crashed)
    case Replay(ls) => s.(vol := s.vol + Values(s.log, ls * s.log.Keys), per := s.per + Values(s.log, ls * s.log.Keys))
    case ReplayAll => s.(vol := s.vol + s.log, per := s.per + s.log, pc := Replayed)
    case RecoveryRetire => s.(log := map[], newNodes := {}, pc := Idle)
  }

  /** A run of the system: `states` and the steps between them. */
  ghost predicate IsRun(states: seq<State>, steps: seq<Step>) {
    && |states| == |steps| + 1
    && forall i :: 0 <= i < |steps| ==> Enabled(states[i], steps[i]) && states[i + 1] == Apply(states[i], steps[i])
  }

  /** What recovery makes of the durable image: the snapshots win over the stored words. */
  function Recovered(s: State): Memory {
    s.per + s.log
  }

  /** The values that `steps` commit: one APPENDED_VALUE for each retired commit log. */
  function Committed(steps: seq<Step>): seq<int> {
    if steps == [] then []
    else Committed(steps[..|steps| - 1]) + if steps[|steps| - 1].Retire? then [APPENDED_VALUE] else []
  }

  /** What the cache and a crash do to a word: a write-back makes exactly the words it names
      durable, and a crash loses exactly what is not durable. */
  lemma CacheActs(s: State, ls: set<Loc>, l: Loc)
    ensures Get(Apply(s, WriteBack(ls)).per, l) == Get(if l in ls then s.vol else s.per, l)
    ensures Apply(s, WriteBack(ls)) == s.(per := Apply(s, WriteBack(ls)).per)
    ensures Get(Apply(s, Crash).vol, l) == Get(Apply(s, Crash).per, l) == Get(s.per, l)
    ensures Apply(s, Crash).log == s.log && Apply(s, Crash).live == s.live
  {
  }

  /** Recovery puts back exactly the snapshots it has got to, in any order. */
  lemma ReplayActs(s: State, ls: set<Loc>, l: Loc)
    requires s.pc.Crashed?
    ensures var s' := Apply(s, Replay(ls));
            && Get(s'.per, l) == (if l in ls && l in s.log then s.log[l] else Get(s.per, l))
            && Get(s'.vol, l) == (if l in ls && l in s.log then s.log[l] else Get(s.vol, l))
            && s' == s.(vol := s'.vol, per := s'.per)
  {
  }

  // ----- The invariant -----

  /** The word through which the new element is linked. */
  function LinkWord(s: State): Loc {
    if s.tail == NULL_NODE then RootHead else NodeNext(s.tail)
  }

  predicate HasLinked(pc: Pc) {
    pc.Linked? || HasMoved(pc)
  }

  predicate HasMoved(pc: Pc) {
    pc.TailMoved? || HasCounted(pc)
  }

  predicate HasCounted(pc: Pc) {
    pc.Counted? || pc.Flushed?
  }

  predicate LinkIsLogged(pc: Pc) {
    pc.TailLogged? || HasLinked(pc)
  }

  predicate RootIsLogged(pc: Pc) {
    pc.RootLogged? || LinkIsLogged(pc)
  }

  predicate HasNode(pc: Pc) {
    pc.Allocated? || pc.Valued? || RootIsLogged(pc)
  }

  predicate InTransaction(pc: Pc) {
    pc.Begun? || pc.GotTail? || HasNode(pc)
  }

  /** The word with the snapshots put back. */
  function Undo(m: Memory, log: Memory, l: Loc): int {
    if l in log then log[l] else Get(m, l)
  }

  /** What the transaction has made of a word of the list so far. */
  function Expected(s: State, l: Loc): int {
    if l == RootNum && HasCounted(s.pc) then Undo(s.vol, s.log, RootNum) + 1
    else if l == RootTail && HasMoved(s.pc) then s.node
    else if l == LinkWord(s) && HasLinked(s.pc) then s.node
    else Undo(s.vol, s.log, l)
  }

  /** Recovery now would give exactly this list, no element is leaked, and the program
      keeps the logging discipline. */
  ghost predicate Inv(s: State, chain: seq<int>, vals: seq<int>) {
    && ListAt(Recovered(s), chain, vals)
    && s.live == NodesOf(chain)
    && Discipline(s)
  }

  ghost predicate Discipline(s: State) {
    Bookkeeping(s) && Untouched(s) && Settled(s) && AsExpected(s) && WrittenBack(s)
  }

  predicate Bookkeeping(s: State) {
    && (s.pc.Idle? || s.pc.Begun? || s.pc.GotTail? ==> s.log == map[] && s.newNodes == {})
    && (InTransaction(s.pc) && !s.pc.Begun? ==> s.tail == NULL_NODE || s.tail in s.live)
    && (HasNode(s.pc) ==> NodeOk(s))
    && (RootIsLogged(s.pc) ==> RootHead in s.log && RootTail in s.log && RootNum in s.log)
    && (LinkIsLogged(s.pc) ==> LinkWord(s) in s.log)
    && (s.pc.TailLogged? ==> s.tail != NULL_NODE)
  }

  predicate NodeOk(s: State) {
    && s.newNodes == {s.node} && s.node != NULL_NODE && s.node !in s.live
    && Get(s.vol, NodeNext(s.node)) == NULL_NODE
    && (!s.pc.Allocated? ==> Get(s.vol, NodeVal(s.node)) == APPENDED_VALUE)
    && NodeVal(s.node) !in s.log && NodeNext(s.node) !in s.log
  }

  /** A word without a snapshot was not changed, so writing it back is harmless. */
  ghost predicate Untouched(s: State) {
    forall l :: InList(s.live, l) && l !in s.log ==> Get(s.vol, l) == Get(s.per, l)
  }

  /** After a crash both copies agree; after an undo or a replay they hold the snapshots. */
  ghost predicate Settled(s: State) {
    && (s.pc.Crashed? ==> forall l :: l in s.log ==> Get(s.vol, l) == Get(s.per, l))
    && (s.pc.Undone? || s.pc.Replayed? ==> forall l :: l in s.log ==> Get(s.vol, l) == Get(s.per, l) == s.log[l])
  }

  ghost predicate AsExpected(s: State) {
    && (InTransaction(s.pc) ==> forall l :: InList(s.live, l) ==> Get(s.vol, l) == Expected(s, l))
    && (InTransaction(s.pc) && !s.pc.Begun? ==> s.tail == Undo(s.vol, s.log, RootTail))
  }

  ghost predicate WrittenBack(s: State) {
    s.pc.Flushed? ==> forall l :: l in CommitRange(s) ==> Get(s.per, l) == Get(s.vol, l)
  }

  // ----- Every step keeps the invariant -----

  function ChainAfter(s: State, step: Step, chain: seq<int>): seq<int> {
    if step.Retire? then chain + [s.node] else chain
  }

  function ValsAfter(step: Step, vals: seq<int>): seq<int> {
    if step.Retire? then vals + [APPENDED_VALUE] else vals
  }

  lemma StepKeepsInv(s: State, step: Step, chain: seq<int>, vals: seq<int>)
    requires Inv(s, chain, vals) && Enabled(s, step)
    ensures Inv(Apply(s, step), ChainAfter(s, step, chain), ValsAfter(step, vals))
  {
    if step.Retire? {
      RetireKeepsInv(s, chain, vals);
    } else {
      if s.pc.Begun? {
        TailIsListed(s, chain, vals);
      }
      StepKeepsDiscipline(s, step);
      StepKeepsRecovered(s, step);
      ListFrame(Recovered(s), Recovered(Apply(s, step)), chain, vals);
    }
  }

  lemma TailIsListed(s: State, chain: seq<int>, vals: seq<int>)
    requires Inv(s, chain, vals) && s.pc.Begun?
    ensures Get(s.vol, RootTail) == NULL_NODE || Get(s.vol, RootTail) in s.live
  {
    assert InList(s.live, RootTail);
    if chain != [] {
      assert chain[|chain| - 1] in NodesOf(chain);
    }
  }

  /** Before the commit log is retired, no step changes what recovery would yield. */
  lemma StepKeepsRecovered(s: State, step: Step)
    requires Bookkeeping(s) && Untouched(s) && Settled(s) && Enabled(s, step) && !step.Retire?
    ensures Apply(s, step).live == s.live
    ensures Agree(Recovered(s), Recovered(Apply(s, step)), s.live)
  {
    var s' := Apply(s, step);
    forall l | InList(s.live, l) ensures Get(Recovered(s), l) == Get(Recovered(s'), l) {
      RecoveredWord(s, l);
      RecoveredWord(s', l);
      match step {
        case AddRoot => SnapshotKeepsRecovered(s, RootWords(), l);
        case AddTail => SnapshotKeepsRecovered(s, NodeWords(s.tail), l);
        case CommitFlush => WriteBackKeepsRecovered(s, CommitRange(s), l);
        case WriteBack(ls) => WriteBackKeepsRecovered(s, ls, l);
        case AbortRetire | RecoveryRetire => RetireKeepsRecovered(s, l);
        case _ =>
      }
    }
  }

  lemma RecoveredWord(s: State, l: Loc)
    ensures Get(Recovered(s), l) == Undo(s.per, s.log, l)
  {
  }

  /** A word gets its first snapshot while the durable copy still is the old one. */
  lemma SnapshotKeepsRecovered(s: State, ls: set<Loc>, l: Loc)
    requires Untouched(s) && InList(s.live, l)
    ensures Undo(s.per, Snapshot(s, ls), l) == Undo(s.per, s.log, l)
  {
  }

  lemma WriteBackKeepsRecovered(s: State, ls: set<Loc>, l: Loc)
    requires Untouched(s) && InList(s.live, l)
    ensures Undo(s.per + Values(s.vol, ls), s.log, l) == Undo(s.per, s.log, l)
  {
  }

  lemma RetireKeepsRecovered(s: State, l: Loc)
    requires Settled(s) && (s.pc.Undone? || s.pc.Replayed?)
    ensures Undo(s.per, map[], l) == Undo(s.per, s.log, l)
  {
  }

  lemma StepKeepsDiscipline(s: State, step: Step)
    requires Discipline(s) && Enabled(s, step) && !step.Retire?
    requires s.pc.Begun? ==> Get(s.vol, RootTail) == NULL_NODE || Get(s.vol, RootTail) in s.live
    ensures Discipline(Apply(s, step))
  {
    StepKeepsBookkeeping(s, step);
    StepKeepsUntouched(s, step);
    StepKeepsSettled(s, step);
    StepKeepsExpected(s, step);
    StepKeepsWrittenBack(s, step);
  }

  lemma StepKeepsBookkeeping(s: State, step: Step)
    requires Bookkeeping(s) && Enabled(s, step) && !step.Retire?
    requires s.pc.Begun? ==> Get(s.vol, RootTail) == NULL_NODE || Get(s.vol, RootTail) in s.live
    ensures Bookkeeping(Apply(s, step))
  {
    match step
    case AddRoot | AddTail => SnapshotKeepsBookkeeping(s, step);
    case SetValue | LinkToTail | LinkToHead | MoveTail | CountUp => StoreKeepsBookkeeping(s, step);
    case _ =>
  }

  predicate IsStore(step: Step) {
    step.SetValue? || step.LinkToTail? || step.LinkToHead? || step.MoveTail? || step.CountUp?
  }

  lemma SnapshotKeepsBookkeeping(s: State, step: Step)
    requires Bookkeeping(s) && Enabled(s, step) && (step.AddRoot? || step.AddTail?)
    ensures Bookkeeping(Apply(s, step))
  {
  }

  lemma StoreKeepsBookkeeping(s: State, step: Step)
    requires Bookkeeping(s) && Enabled(s, step) && IsStore(step)
    ensures Bookkeeping(Apply(s, step))
  {
  }

  /** The in-place stores to the list hit only snapshotted words. */
  lemma StepKeepsUntouched(s: State, step: Step)
    requires Bookkeeping(s) && Untouched(s) && Settled(s) && Enabled(s, step) && !step.Retire?
    ensures Untouched(Apply(s, step))
  {
  }

  lemma StepKeepsSettled(s: State, step: Step)
    requires Settled(s) && Enabled(s, step)
    ensures Settled(Apply(s, step))
  {
  }

  lemma StepKeepsExpected(s: State, step: Step)
    requires Bookkeeping(s) && AsExpected(s) && Enabled(s, step) && !step.Retire?
    ensures AsExpected(Apply(s, step))
  {
    if step.AddRoot? || step.AddTail? {
      SnapshotKeepsExpected(s, step);
    } else if IsStore(step) {
      StoreKeepsExpected(s, step);
    } else if step.ZNew? {
      ZNewKeepsExpected(s, step.id);
    } else if InTransaction(Apply(s, step).pc) {
      QuietStepKeepsExpected(s, step);
    }
  }

  lemma QuietStepKeepsExpected(s: State, step: Step)
    requires Bookkeeping(s) && AsExpected(s) && Enabled(s, step) && InTransaction(Apply(s, step).pc)
    requires step.Begin? || step.ReadTail? || step.CommitFlush? || step.WriteBack?
    ensures AsExpected(Apply(s, step))
  {
    var s' := Apply(s, step);
    forall l | InList(s.live, l) ensures Get(s'.vol, l) == Expected(s', l) {
      assert !step.Begin? ==> Get(s.vol, l) == Expected(s, l);
    }
  }

  lemma ZNewKeepsExpected(s: State, id: int)
    requires Bookkeeping(s) && AsExpected(s) && Enabled(s, ZNew(id))
    ensures AsExpected(Apply(s, ZNew(id)))
  {
    var s' := Apply(s, ZNew(id));
    forall l | InList(s.live, l) ensures Get(s'.vol, l) == Expected(s', l) {
      assert Get(s'.vol, l) == Get(s.vol, l) == Expected(s, l);
    }
    assert InList(s.live, RootTail);
  }

  lemma SnapshotKeepsExpected(s: State, step: Step)
    requires Bookkeeping(s) && AsExpected(s) && Enabled(s, step) && (step.AddRoot? || step.AddTail?)
    ensures AsExpected(Apply(s, step))
  {
    var s' := Apply(s, step);
    forall l | InList(s.live, l) ensures Get(s'.vol, l) == Expected(s', l) {
      assert Undo(s'.vol, s'.log, l) == Undo(s.vol, s.log, l);
    }
    assert InList(s.live, RootTail);
  }

  lemma StoreKeepsExpected(s: State, step: Step)
    requires Bookkeeping(s) && AsExpected(s) && Enabled(s, step) && IsStore(step)
    ensures AsExpected(Apply(s, step))
  {
    if step.SetValue? {
      ValueKeepsExpected(s);
    } else {
      LinkKeepsExpected(s, step);
    }
  }

  lemma ValueKeepsExpected(s: State)
    requires Bookkeeping(s) && AsExpected(s) && Enabled(s, SetValue)
    ensures AsExpected(Apply(s, SetValue))
  {
    var s' := Apply(s, SetValue);
    forall l | InList(s.live, l) ensures Get(s'.vol, l) == Expected(s', l) {
      assert Get(s.vol, l) == Expected(s, l);
    }
    assert InList(s.live, RootTail);
  }

  lemma LinkKeepsExpected(s: State, step: Step)
    requires Bookkeeping(s) && AsExpected(s) && Enabled(s, step) && IsStore(step) && !step.SetValue?
    ensures AsExpected(Apply(s, step))
  {
    var s' := Apply(s, step);
    forall l | InList(s.live, l) ensures Get(s'.vol, l) == Expected(s', l) {
      assert Undo(s'.vol, s'.log, l) == Undo(s.vol, s.log, l);
    }
  }

  lemma StepKeepsWrittenBack(s: State, step: Step)
    requires WrittenBack(s) && Enabled(s, step)
    ensures WrittenBack(Apply(s, step))
  {
  }

  /** A word of the list with `node` appended behind `link`, in terms of the list before. */
  function AppendedWord(m: Memory, link: Loc, node: int, l: Loc): int {
    if l.RootNum? then Get(m, RootNum) + 1
    else if l.RootTail? || l == link then node
    else Get(m, l)
  }

  lemma FlushedWords(s: State)
    requires Bookkeeping(s) && Untouched(s) && AsExpected(s) && s.pc.Flushed?
    ensures forall l :: InList(s.live, l) ==> Get(s.vol, l) == AppendedWord(Recovered(s), LinkWord(s), s.node, l)
    ensures s.tail == Get(Recovered(s), RootTail)
  {
    forall l | InList(s.live, l)
      ensures Get(s.vol, l) == AppendedWord(Recovered(s), LinkWord(s), s.node, l)
      ensures Undo(s.vol, s.log, l) == Get(Recovered(s), l)
    {
      assert Get(s.vol, l) == Expected(s, l);
    }
    assert InList(s.live, RootTail);
  }

  /** Linking a fresh element behind the last one appends it to the list. */
  lemma AppendedList(m: Memory, m': Memory, chain: seq<int>, vals: seq<int>, node: int, v: int)
    requires ListAt(m, chain, vals) && node != NULL_NODE && node !in chain
    requires var link := if chain == [] then RootHead else NodeNext(chain[|chain| - 1]);
             forall l :: InList(NodesOf(chain), l) ==> Get(m', l) == AppendedWord(m, link, node, l)
    requires Get(m', NodeVal(node)) == v && Get(m', NodeNext(node)) == NULL_NODE
    ensures ListAt(m', chain + [node], vals + [v])
  {
    var nodes := NodesOf(chain);
    assert InList(nodes, RootHead) && InList(nodes, RootTail) && InList(nodes, RootNum);
    forall i | 0 <= i < |chain| + 1
      ensures Get(m', NodeVal((chain + [node])[i])) == (vals + [v])[i]
      ensures Get(m', NodeNext((chain + [node])[i])) == if i < |chain| then (chain + [node])[i + 1] else NULL_NODE
    {
      if i < |chain| {
        assert chain[i] in nodes;
        assert InList(nodes, NodeVal(chain[i])) && InList(nodes, NodeNext(chain[i]));
      }
    }
  }

  /** Before the log is retired the volatile image holds the list with the new element. */
  lemma FlushedList(s: State, chain: seq<int>, vals: seq<int>)
    requires Inv(s, chain, vals) && s.pc.Flushed?
    ensures ListAt(s.vol, chain + [s.node], vals + [APPENDED_VALUE])
  {
    FlushedWords(s);
    assert s.node !in chain;
    AppendedList(Recovered(s), s.vol, chain, vals, s.node, APPENDED_VALUE);
  }

  lemma FlushedAgrees(s: State)
    requires Bookkeeping(s) && Untouched(s) && WrittenBack(s) && s.pc.Flushed?
    ensures Agree(s.vol, s.per, s.live + {s.node})
  {
  }

  lemma RetireKeepsInv(s: State, chain: seq<int>, vals: seq<int>)
    requires Inv(s, chain, vals) && s.pc.Flushed?
    ensures Inv(Apply(s, Retire), chain + [s.node], vals + [APPENDED_VALUE])
  {
    FlushedList(s, chain, vals);
    FlushedAgrees(s);
    assert NodesOf(chain + [s.node]) == s.live + {s.node};
    ListFrame(s.vol, s.per, chain + [s.node], vals + [APPENDED_VALUE]);
    assert Recovered(Apply(s, Retire)) == s.per;
    RetireKeepsDiscipline(s);
  }

  lemma RetireKeepsDiscipline(s: State)
    requires Bookkeeping(s) && s.pc.Flushed? && Agree(s.vol, s.per, s.live + {s.node})
    ensures Discipline(Apply(s, Retire))
  {
  }

  // ----- The main results, for every run -----

  /** A state between two transactions whose memory holds the list `vals`. */
  ghost predicate Quiescent(s: State, chain: seq<int>, vals: seq<int>) {
    && s.pc.Idle? && s.log == map[] && s.newNodes == {}
    && s.live == NodesOf(chain)
    && ListAt(s.per, chain, vals)
    && Agree(s.vol, s.per, s.live)
  }

  lemma QuiescentIsInv(s: State, chain: seq<int>, vals: seq<int>)
    ensures Quiescent(s, chain, vals) <==> Inv(s, chain, vals) && s.pc.Idle?
  {
    if s.log == map[] {
      assert Recovered(s) == s.per;
    }
  }

  lemma RunPrefix(states: seq<State>, steps: seq<Step>, k: nat)
    requires IsRun(states, steps) && k <= |steps|
    ensures IsRun(states[..k + 1], steps[..k])
  {
  }

  lemma {:induction false} CommittedNext(steps: seq<Step>, vals: seq<int>)
    requires steps != []
    ensures vals + Committed(steps) == ValsAfter(steps[|steps| - 1], vals + Committed(steps[..|steps| - 1]))
  {
    var before := Committed(steps[..|steps| - 1]);
    assert vals + (before + [APPENDED_VALUE]) == (vals + before) + [APPENDED_VALUE];
    assert before + [] == before;
  }

  lemma {:induction false} RunKeepsInv(states: seq<State>, steps: seq<Step>, chain: seq<int>, vals: seq<int>)
    returns (chain': seq<int>)
    requires IsRun(states, steps) && Inv(states[0], chain, vals)
    ensures Inv(states[|steps|], chain', vals + Committed(steps))
    ensures chain <= chain'
  {
    if steps == [] {
      chain' := chain;
      assert vals + Committed(steps) == vals;
    } else {
      var k := |steps| - 1;
      RunPrefix(states, steps, k);
      var before := RunKeepsInv(states[..k + 1], steps[..k], chain, vals);
      StepKeepsInv(states[k], steps[k], before, vals + Committed(steps[..k]));
      chain' := ChainAfter(states[k], steps[k], before);
      CommittedNext(steps, vals);
    }
  }

  /** Crash atomicity.  From any well-formed list, after any run with commits, aborts,
      write-backs, crashes and interrupted recoveries, recovery yields exactly the old
      list followed by one new element for each commit whose log was retired. */
  lemma CrashAtomicity(states: seq<State>, steps: seq<Step>, chain: seq<int>, vals: seq<int>)
    returns (chain': seq<int>)
    requires IsRun(states, steps) && Quiescent(states[0], chain, vals)
    ensures chain <= chain'
    ensures ListAt(Recovered(states[|steps|]), chain', vals + Committed(steps))
    ensures states[|steps|].live == NodesOf(chain')
  {
    QuiescentIsInv(states[0], chain, vals);
    chain' := RunKeepsInv(states, steps, chain, vals);
  }

  /** The steps of one transaction: Begin and no other Begin. */
  predicate BeginsOnce(steps: seq<Step>) {
    |steps| > 0 && steps[0].Begin? && forall i :: 1 <= i < |steps| ==> !steps[i].Begin?
  }

  /** One transaction: as long as its commit is not retired recovery gives the old list,
      afterwards the old list and 100 at its end, whichever words had been written back. */
  lemma OneTransaction(states: seq<State>, steps: seq<Step>, chain: seq<int>, vals: seq<int>)
    returns (chain': seq<int>)
    requires IsRun(states, steps) && Quiescent(states[0], chain, vals) && BeginsOnce(steps)
    ensures Committed(steps) == [] || Committed(steps) == [100]
    ensures Committed(steps) == [] ==> ListAt(Recovered(states[|steps|]), chain, vals)
    ensures Committed(steps) == [100] ==> ListAt(Recovered(states[|steps|]), chain', vals + [100])
    ensures chain <= chain' && |chain'| == |chain| + |Committed(steps)|
  {
    chain' := CrashAtomicity(states, steps, chain, vals);
    CommitsOnce(states, steps);
    if Committed(steps) == [] {
      assert vals + Committed(steps) == vals;
      assert chain' == chain;
    }
  }

  lemma OnlyBeginOpens(s: State, step: Step)
    requires Enabled(s, step) && !step.Begin?
    ensures !InTransaction(s.pc) || step.Retire? ==> !InTransaction(Apply(s, step).pc)
    ensures !InTransaction(s.pc) ==> !step.Retire?
  {
  }

  /** Between two Begins at most one commit is retired. */
  lemma {:induction false} CommitsOnce(states: seq<State>, steps: seq<Step>)
    requires IsRun(states, steps) && BeginsOnce(steps)
    ensures Committed(steps) == [] || (Committed(steps) == [APPENDED_VALUE] && !InTransaction(states[|steps|].pc))
  {
    var k := |steps| - 1;
    if k == 0 {
      assert steps[..0] == [];
    } else {
      RunPrefix(states, steps, k);
      CommitsOnce(states[..k + 1], steps[..k]);
      assert states[..k + 1][k] == states[k];
      OnlyBeginOpens(states[k], steps[k]);
    }
  }

  /** Between two transactions of any sequence of program runs on a new pool the list is
      whole: acyclic, with the right head, tail and count, and free of leaked elements. */
  lemma ListOverManyRuns(states: seq<State>, steps: seq<Step>) returns (chain: seq<int>)
    requires IsRun(states, steps) && states[0] == NEW_POOL && states[|steps|].pc.Idle?
    ensures ListAt(states[|steps|].vol, chain, Committed(steps))
    ensures states[|steps|].live == NodesOf(chain)
    ensures Get(states[|steps|].vol, RootNum) == |Committed(steps)| == |chain|
    ensures Get(states[|steps|].vol, RootHead) == NULL_NODE <==> Get(states[|steps|].vol, RootTail) == NULL_NODE
  {
    assert Quiescent(NEW_POOL, [], []);
    QuiescentIsInv(NEW_POOL, [], []);
    chain := RunKeepsInv(states, steps, [], []);
    assert [] + Committed(steps) == Committed(steps);
    QuiescentIsInv(states[|steps|], chain, Committed(steps));
    ListFrame(states[|steps|].per, states[|steps|].vol, chain, Committed(steps));
  }

  // ----- The program text -----

  lemma TailOfList(s: State, chain: seq<int>, vals: seq<int>)
    requires Quiescent(s, chain, vals)
    ensures Inv(s, chain, vals)
    ensures Get(s.vol, RootTail) == NULL_NODE <==> chain == []
  {
    QuiescentIsInv(s, chain, vals);
    assert InList(s.live, RootTail);
  }

  /** The pool as the program changes it; what the cache writes back in between is not its
      choice. */
  class Pool {
    var image: State

    constructor ()
      ensures image == NEW_POOL
      ensures Quiescent(image, [], [])
    {
      image := NEW_POOL;
    }

    /** One statement of the program, after which the cache writes back `evicted`. */
    method Do(step: Step, evicted: set<Loc>, ghost chain: seq<int>, ghost vals: seq<int>)
      requires Enabled(image, step) && Inv(image, chain, vals)
      modifies this
      ensures image.pc == Apply(old(image), step).pc
      ensures image.tail == Apply(old(image), step).tail && image.node == Apply(old(image), step).node
      ensures step.Begin? ==> Get(image.vol, RootTail) == Get(old(image).vol, RootTail)
      ensures !step.Retire? ==> image.live == old(image.live)
      ensures Inv(image, ChainAfter(old(image), step, chain), ValsAfter(step, vals))
    {
      StepKeepsInv(image, step, chain, vals);
      image := Apply(image, step);
      StepKeepsInv(image, WriteBack(evicted), ChainAfter(old(image), step, chain), ValsAfter(step, vals));
      image := Apply(image, WriteBack(evicted));
    }

    /** The transaction block.  `ok` are the results of TX_ZNEW, TX_ADD(root) and TX_ADD(tail). */
    method Append(id: int, ok: (bool, bool, bool), evict: nat -> set<Loc>, ghost chain: seq<int>, ghost vals: seq<int>)
      returns (committed: bool)
      requires Quiescent(image, chain, vals) && id != NULL_NODE && id !in chain
      modifies this
      ensures committed <==> ok.0 && ok.1 && (chain == [] || ok.2)
      ensures committed ==> Quiescent(image, chain + [id], vals + [APPENDED_VALUE])
      ensures !committed ==> Quiescent(image, chain, vals)
    {
      TailOfList(image, chain, vals);
      Do(Begin, evict(0), chain, vals);
      Do(ReadTail, evict(1), chain, vals);
      if !ok.0 { committed := Abort(evict, chain, vals); return; }
      Do(ZNew(id), evict(2), chain, vals);
      Do(SetValue, evict(3), chain, vals);
      if !ok.1 { committed := Abort(evict, chain, vals); return; }
      Do(AddRoot, evict(4), chain, vals);
      if image.tail != NULL_NODE {
        if !ok.2 { committed := Abort(evict, chain, vals); return; }
        Do(AddTail, evict(5), chain, vals);
        Do(LinkToTail, evict(6), chain, vals);
      } else {
        Do(LinkToHead, evict(6), chain, vals);
      }
      committed := Commit(evict, chain, vals);
    }

    /** The end of the block and the commit. */
    method Commit(evict: nat -> set<Loc>, ghost chain: seq<int>, ghost vals: seq<int>) returns (committed: bool)
      requires image.pc.Linked? && Inv(image, chain, vals)
      modifies this
      ensures committed && Quiescent(image, chain + [old(image.node)], vals + [APPENDED_VALUE])
    {
      Do(MoveTail, evict(7), chain, vals);
      Do(CountUp, evict(8), chain, vals);
      Do(CommitFlush, evict(9), chain, vals);
      Do(Retire, evict(10), chain, vals);
      QuiescentIsInv(image, chain + [old(image.node)], vals + [APPENDED_VALUE]);
      committed := true;
    }

    method Abort(evict: nat -> set<Loc>, ghost chain: seq<int>, ghost vals: seq<int>) returns (committed: bool)
      requires Enabled(image, Fail) && Inv(image, chain, vals)
      modifies this
      ensures !committed && Quiescent(image, chain, vals)
    {
      Do(Fail, evict(11), chain, vals);
      Do(UndoAll, evict(12), chain, vals);
      Do(AbortRetire, evict(13), chain, vals);
      QuiescentIsInv(image, chain, vals);
      committed := false;
    }
  }
}
