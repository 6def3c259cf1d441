/**
  The sequential workloads of bench/bench.cc: fillseq, readseq and deleteseq run by several
  threads, in every interleaving, over an atomic map.
*/
module Workload {
  import opened Counting
  import opened Keys

  type Store = map<Key, string>

  /** T threads work on num keys each; `key` makes the key of an index. */
  datatype Config = Config(key: nat -> Key, num: nat, threads: nat)

  /** t * num, by repeated addition. */
  function Offset(num: nat, t: nat): nat {
    if t == 0 then 0 else Offset(num, t - 1) + num
  }

  lemma {:induction false} OffsetIsProduct(num: nat, t: nat)
    ensures Offset(num, t) == t * num
  {
    if t > 0 {
      OffsetIsProduct(num, t - 1);
      assert t * num == (t - 1) * num + num;
    }
  }

  lemma {:induction false} OffsetGrows(num: nat, t: nat, u: nat)
    requires t < u
    ensures Offset(num, t) + num <= Offset(num, u)
  {
    if t + 1 < u {
      OffsetGrows(num, t, u - 1);
    }
  }

  function Total(c: Config): nat {
    Offset(c.num, c.threads)
  }

  /** Thread t's j-th key. */
  function KeyAt(c: Config, t: nat, j: nat): Key {
    c.key(j + Offset(c.num, t))
  }

  /** The shared map and, for every thread, how many operations it has done. */
  datatype State = State(store: Store, done: seq<nat>)

  predicate CanStep(c: Config, s: State, t: nat) {
    t < |s.done| && s.done[t] < c.num
  }

  /** One put of DoWrite by thread t. */
  function Put(c: Config, s: State, t: nat, value: string): State
    requires CanStep(c, s, t)
  {
    State(s.store[KeyAt(c, t, s.done[t]) := value], s.done[t := s.done[t] + 1])
  }

  /** One remove of DoDelete by thread t. */
  function Remove(c: Config, s: State, t: nat): State
    requires CanStep(c, s, t)
  {
    State(s.store - {KeyAt(c, t, s.done[t])}, s.done[t := s.done[t] + 1])
  }

  function AllZero(n: nat): seq<nat> {
    seq(n, i => 0)
  }

  /** An interleaving of fillseq threads on a fresh store; `who` says who moves. */
  ghost predicate IsFill(c: Config, value: string, states: seq<State>, who: seq<nat>) {
    && |states| == |who| + 1
    && states[0] == State(map[], AllZero(c.threads))
    && forall i :: 0 <= i < |who| ==> CanStep(c, states[i], who[i]) && states[i + 1] == Put(c, states[i], who[i], value)
  }

  /** An interleaving of deleteseq threads on any store. */
  ghost predicate IsDelete(c: Config, states: seq<State>, who: seq<nat>) {
    && |states| == |who| + 1
    && states[0].done == AllZero(c.threads)
    && forall i :: 0 <= i < |who| ==> CanStep(c, states[i], who[i]) && states[i + 1] == Remove(c, states[i], who[i])
  }

  predicate Finished(c: Config, s: State) {
    |s.done| == c.threads && forall t :: 0 <= t < c.threads ==> s.done[t] == c.num
  }

  // ----- Indices -----

  lemma IndexBound(c: Config, t: nat, j: nat)
    requires t < c.threads && j < c.num
    ensures j + Offset(c.num, t) < Total(c)
  {
    OffsetGrows(c.num, t, c.threads);
  }

  lemma IndexInjective(num: nat, t: nat, j: nat, u: nat, k: nat)
    requires j < num && k < num && j + Offset(num, t) == k + Offset(num, u)
    ensures t == u && j == k
  {
    if t < u {
      OffsetGrows(num, t, u);
    } else if u < t {
      OffsetGrows(num, u, t);
    }
  }

  /** Every index belongs to one thread. */
  lemma {:induction false} SplitIndex(num: nat, threads: nat, i: nat) returns (t: nat, j: nat)
    requires i < Offset(num, threads)
    ensures t < threads && j < num && i == j + Offset(num, t)
  {
    if i >= Offset(num, threads - 1) {
      t, j := threads - 1, i - Offset(num, threads - 1);
    } else {
      t, j := SplitIndex(num, threads - 1, i);
    }
  }

  /** No two of the keys that the threads use are the same. */
  lemma KeysAreDistinct(c: Config, t: nat, j: nat, u: nat, k: nat)
    requires Distinct(c.key, Total(c)) && t < c.threads && u < c.threads && j < c.num && k < c.num
    requires KeyAt(c, t, j) == KeyAt(c, u, k)
    ensures t == u && j == k
  {
    IndexBound(c, t, j);
    IndexBound(c, u, k);
    IndexInjective(c.num, t, j, u, k);
  }

  // ----- fillseq -----

  /** Thread t has done its operation on its j-th key. */
  predicate HasDone(s: State, t: nat, j: nat) {
    t < |s.done| && j < s.done[t]
  }

  ghost predicate IsDoneKey(c: Config, s: State, k: Key) {
    exists t: nat, j: nat :: HasDone(s, t, j) && KeyAt(c, t, j) == k
  }

  ghost predicate StoreIsDone(c: Config, s: State) {
    forall k :: k in s.store <==> IsDoneKey(c, s, k)
  }

  predicate InProgress(c: Config, s: State) {
    |s.done| == c.threads && forall t :: 0 <= t < c.threads ==> s.done[t] <= c.num
  }

  predicate AllHave(store: Store, value: string) {
    forall k :: k in store ==> store[k] == value
  }

  ghost predicate FillInv(c: Config, value: string, s: State) {
    && InProgress(c, s)
    && StoreIsDone(c, s)
    && AllHave(s.store, value)
    && (Distinct(c.key, Total(c)) ==> |s.store| == Sum(Itself, s.done))
  }

  function Itself(n: nat): nat {
    n
  }

  /** The operation of thread t adds one key to the done ones. */
  lemma DoneKeysNext(c: Config, s: State, s': State, t: nat, k: Key)
    requires CanStep(c, s, t) && s'.done == s.done[t := s.done[t] + 1]
    ensures IsDoneKey(c, s', k) <==> IsDoneKey(c, s, k) || k == KeyAt(c, t, s.done[t])
  {
    if IsDoneKey(c, s, k) {
      var u: nat, j: nat :| HasDone(s, u, j) && KeyAt(c, u, j) == k;
      assert HasDone(s', u, j);
    }
    if k == KeyAt(c, t, s.done[t]) {
      assert HasDone(s', t, s.done[t]);
    }
    if IsDoneKey(c, s', k) {
      var u: nat, j: nat :| HasDone(s', u, j) && KeyAt(c, u, j) == k;
      assert HasDone(s, u, j) || (u == t && j == s.done[t]);
    }
  }

  /** A thread's next key is new. */
  lemma NextKeyIsNew(c: Config, s: State, t: nat)
    requires Distinct(c.key, Total(c)) && InProgress(c, s) && CanStep(c, s, t)
    ensures !IsDoneKey(c, s, KeyAt(c, t, s.done[t]))
  {
    if IsDoneKey(c, s, KeyAt(c, t, s.done[t])) {
      var u: nat, j: nat :| HasDone(s, u, j) && KeyAt(c, u, j) == KeyAt(c, t, s.done[t]);
      KeysAreDistinct(c, u, j, t, s.done[t]);
    }
  }

  lemma PutKeepsInv(c: Config, value: string, s: State, t: nat)
    requires FillInv(c, value, s) && CanStep(c, s, t)
    ensures FillInv(c, value, Put(c, s, t, value))
  {
    if Distinct(c.key, Total(c)) {
      PutAddsOne(c, value, s, t);
    }
    PutKeepsStore(c, value, s, t);
  }

  lemma PutAddsOne(c: Config, value: string, s: State, t: nat)
    requires Distinct(c.key, Total(c)) && InProgress(c, s) && StoreIsDone(c, s) && CanStep(c, s, t)
    ensures |Put(c, s, t, value).store| == |s.store| + 1
    ensures Sum(Itself, Put(c, s, t, value).done) == Sum(Itself, s.done) + 1
  {
    NextKeyIsNew(c, s, t);
    MapGrows(s.store, KeyAt(c, t, s.done[t]), value);
    SumUpdate(Itself, s.done, t, s.done[t] + 1);
  }

  lemma MapGrows(m: Store, k: Key, v: string)
    requires k !in m
    ensures |m[k := v]| == |m| + 1
  {
    assert m[k := v].Keys == m.Keys + {k};
  }

  lemma PutKeepsStore(c: Config, value: string, s: State, t: nat)
    requires StoreIsDone(c, s) && CanStep(c, s, t)
    ensures StoreIsDone(c, Put(c, s, t, value))
  {
    forall k ensures k in Put(c, s, t, value).store <==> IsDoneKey(c, Put(c, s, t, value), k) {
      DoneKeysNext(c, s, Put(c, s, t, value), t, k);
    }
  }

  lemma {:induction false} FillKeepsInv(c: Config, value: string, states: seq<State>, who: seq<nat>, i: nat)
    requires IsFill(c, value, states, who) && i < |states|
    ensures FillInv(c, value, states[i])
  {
    if i == 0 {
      SumOfZeros(Itself, AllZero(c.threads));
    } else {
      FillKeepsInv(c, value, states, who, i - 1);
      PutKeepsInv(c, value, states[i - 1], who[i - 1]);
    }
  }

  ghost predicate IsKeyBelow(c: Config, limit: nat, k: Key) {
    exists i: nat :: i < limit && c.key(i) == k
  }

  /** Exactly the keys of the indices below `limit`. */
  ghost predicate HoldsExactly(c: Config, store: Store, limit: nat) {
    forall k :: k in store <==> IsKeyBelow(c, limit, k)
  }

  lemma DoneKeysWhenFinished(c: Config, s: State, k: Key)
    requires Finished(c, s)
    ensures IsDoneKey(c, s, k) <==> IsKeyBelow(c, Total(c), k)
  {
    if IsDoneKey(c, s, k) {
      var t: nat, j: nat :| HasDone(s, t, j) && KeyAt(c, t, j) == k;
      IndexBound(c, t, j);
      assert c.key(j + Offset(c.num, t)) == k;
    }
    if IsKeyBelow(c, Total(c), k) {
      var i: nat :| i < Total(c) && c.key(i) == k;
      var t, j := SplitIndex(c.num, c.threads, i);
      assert HasDone(s, t, j) && KeyAt(c, t, j) == k;
    }
  }

  /** The keys of the indices below n. */
  function KeySet(key: nat -> Key, n: nat): set<Key> {
    if n == 0 then {} else KeySet(key, n - 1) + {key(n - 1)}
  }

  lemma {:induction false} InKeySet(key: nat -> Key, n: nat, k: Key)
    ensures k in KeySet(key, n) <==> exists i: nat :: i < n && key(i) == k
  {
    if n > 0 {
      InKeySet(key, n - 1, k);
    }
  }

  /** There are n of them exactly when they are distinct. */
  lemma {:induction false} KeySetSize(key: nat -> Key, n: nat)
    ensures |KeySet(key, n)| <= n
    ensures |KeySet(key, n)| == n <==> Distinct(key, n)
  {
    if n > 0 {
      KeySetSize(key, n - 1);
      InKeySet(key, n - 1, key(n - 1));
    }
  }

  lemma StoreSize(c: Config, store: Store, limit: nat)
    requires HoldsExactly(c, store, limit)
    ensures |store| == limit <==> Distinct(c.key, limit)
  {
    forall k ensures k in store.Keys <==> k in KeySet(c.key, limit) {
      InKeySet(c.key, limit, k);
    }
    assert store.Keys == KeySet(c.key, limit);
    KeySetSize(c.key, limit);
  }

  /** Every interleaving of T fillseq threads leaves exactly the keys of the indices 0 to
      T * num - 1, all with the given value; they number T * num if and only if the keys of
      these indices are distinct. */
  lemma FillSeqResult(c: Config, value: string, states: seq<State>, who: seq<nat>)
    requires IsFill(c, value, states, who) && Finished(c, states[|who|])
    ensures HoldsExactly(c, states[|who|].store, c.threads * c.num)
    ensures AllHave(states[|who|].store, value)
    ensures |states[|who|].store| == c.threads * c.num <==> Distinct(c.key, c.threads * c.num)
  {
    var s := states[|who|];
    OffsetIsProduct(c.num, c.threads);
    FillKeepsInv(c, value, states, who, |who|);
    forall k ensures k in s.store <==> IsKeyBelow(c, Total(c), k) {
      DoneKeysWhenFinished(c, s, k);
    }
    StoreSize(c, s.store, Total(c));
  }

  // ----- readseq -----

  /** DoRead of thread `tid` after fillseq: it finds every key it asks for as long as there
      are indices left, and, when the keys it asks for are distinct, none beyond. */
  method ReadSeq(c: Config, store: Store, tid: nat, readCount: nat) returns (found: nat)
    requires tid < c.threads && HoldsExactly(c, store, Total(c))
    ensures readCount <= c.num ==> found == readCount
    ensures Distinct(c.key, Offset(c.num, tid) + readCount) ==>
              var left := Total(c) - Offset(c.num, tid);
              found == if readCount <= left then readCount else left
  {
    found := 0;
    OffsetGrows(c.num, tid, c.threads);
    ghost var left := Total(c) - Offset(c.num, tid);
    ghost var limit := Offset(c.num, tid) + readCount;
    for i := 0 to readCount
      invariant i <= left ==> found == i
      invariant i > left && Distinct(c.key, limit) ==> found == left
    {
      InStoreExactly(c, store, i + Offset(c.num, tid), limit);
      if KeyAt(c, tid, i) in store {
        found := found + 1;
      }
    }
  }

  lemma InStoreExactly(c: Config, store: Store, i: nat, limit: nat)
    requires HoldsExactly(c, store, Total(c)) && i < limit
    ensures i < Total(c) ==> c.key(i) in store
    ensures Distinct(c.key, limit) && c.key(i) in store ==> i < Total(c)
  {
    assert i < Total(c) ==> IsKeyBelow(c, Total(c), c.key(i));
    if Distinct(c.key, limit) && c.key(i) in store {
      var k: nat :| k < Total(c) && c.key(k) == c.key(i);
    }
  }

  // ----- deleteseq -----

  lemma {:induction false} DeleteKeepsInv(c: Config, states: seq<State>, who: seq<nat>, i: nat)
    requires IsDelete(c, states, who) && i < |states|
    ensures |states[i].done| == c.threads
    ensures forall k :: k in states[i].store <==> k in states[0].store && !IsDoneKey(c, states[i], k)
  {
    if i > 0 {
      DeleteKeepsInv(c, states, who, i - 1);
      forall k ensures k in states[i].store <==> k in states[0].store && !IsDoneKey(c, states[i], k) {
        DoneKeysNext(c, states[i - 1], states[i], who[i - 1], k);
      }
    }
  }

  /** Every interleaving of the same number of deleteseq threads empties what fillseq made;
      on any other store it removes exactly the keys of the indices below T * num. */
  lemma DeleteSeqResult(c: Config, states: seq<State>, who: seq<nat>)
    requires IsDelete(c, states, who) && Finished(c, states[|who|])
    ensures forall k :: k in states[|who|].store <==> k in states[0].store && !IsKeyBelow(c, c.threads * c.num, k)
    ensures HoldsExactly(c, states[0].store, c.threads * c.num) ==> states[|who|].store == map[]
  {
    var s := states[|who|];
    OffsetIsProduct(c.num, c.threads);
    DeleteKeepsInv(c, states, who, |who|);
    forall k ensures IsDoneKey(c, s, k) <==> IsKeyBelow(c, Total(c), k) {
      DoneKeysWhenFinished(c, s, k);
    }
  }

  // ----- The benchmark's own keys -----

  /** With the keys of GenerateKeyFromInt, every finished fill leaves T * num entries if and
      only if the keys are long enough for T * num indices. */
  lemma FillSeqWithGeneratedKeys(order: Endian, keySize: nat, num: nat, threads: nat, value: string,
                                 states: seq<State>, who: seq<nat>)
    requires threads * num <= 0x7fff_ffff
    requires IsFill(Config(KeyMaker(order, keySize), num, threads), value, states, who)
    requires Finished(Config(KeyMaker(order, keySize), num, threads), states[|who|])
    ensures |states[|who|].store| == threads * num <==> KeysSuffice(order, keySize, threads * num)
    ensures HoldsExactly(Config(KeyMaker(order, keySize), num, threads), states[|who|].store, threads * num)
    ensures AllHave(states[|who|].store, value)
  {
    IntsAreSmall();
    DistinctKeysExactly(order, keySize, threads * num);
    FillSeqResult(Config(KeyMaker(order, keySize), num, threads), value, states, who);
  }

  lemma IntsAreSmall()
    ensures 0x7fff_ffff <= Pow256(8)
  {
  }
}
