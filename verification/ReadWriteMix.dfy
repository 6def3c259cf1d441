/**
  Duration and the loop of ReadRandomWriteRandom in bench/bench.cc: how many reads and
  writes a given percentage yields, for every setting of the flag.
*/
module ReadWriteMix {

  class Duration {
    const maxSeconds: nat
    const maxOps: int
    var ops: int

    constructor (maxSeconds: nat, maxOps: int)
      ensures this.maxSeconds == maxSeconds && this.maxOps == maxOps && ops == 0
    {
      this.maxSeconds := maxSeconds;
      this.maxOps := maxOps;
      this.ops := 0;
    }

    /** `elapsed` is the clock's milliseconds since the start, which the source compares with
        the limit in seconds; it matters only with a time limit, and then only when the
        count of operations passes a multiple of 1000. */
    method Done(increment: int, elapsed: nat) returns (done: bool)
      requires ops >= 0
      modifies this
      ensures ops == old(ops) + if increment <= 0 then 1 else increment
      ensures maxSeconds == 0 ==> (done <==> ops > maxOps)
      ensures maxSeconds > 0 ==> (done <==> ops / 1000 != old(ops) / 1000 && elapsed >= maxSeconds)
    {
      var inc := if increment <= 0 then 1 else increment;
      ops := ops + inc;
      if maxSeconds != 0 {
        if ops / 1000 != (ops - inc) / 1000 {
          return elapsed >= maxSeconds;
        } else {
          return false;
        }
      } else {
        return ops > maxOps;
      }
    }
  }

  function Min(a: int, b: int): int {
    if a < b then a else b
  }

  /** The reads among the first k operations, for any value of --readwritepercent. */
  function ReadsAfter(percent: int, k: nat): int {
    if percent < 0 then 0
    else if percent > 100 then Min(k, percent)
    else k / 100 * percent + Min(k % 100, percent)
  }

  /** The writes among the first k operations. */
  function WritesAfter(percent: int, k: nat): int {
    if percent < 0 then Min(k, 100 - percent)
    else if percent > 100 then 0
    else k - ReadsAfter(percent, k)
  }

  /** The weights left over after k operations, at the head of the loop. */
  function GetWeight(percent: int, k: nat): int {
    if k == 0 then 0
    else if percent < 0 then percent
    else if percent > 100 then percent - Min(k, percent)
    else if k % 100 == 0 then 0
    else percent - Min(k % 100, percent)
  }

  function PutWeight(percent: int, k: nat): int {
    if k == 0 then 0
    else if percent < 0 then 100 - percent - Min(k, 100 - percent)
    else if percent > 100 then 100 - percent
    else if k % 100 == 0 then 0
    else if k % 100 <= percent then 100 - percent
    else 100 - k % 100
  }

  /** The loop with no time limit: it runs exactly max(0, readwrites) times.  With a
      percentage from 0 to 100 every iteration reads or writes, and the reads come first in
      each batch of 100; outside that range it falls idle after the first batch. */
  method ReadRandomWriteRandom(percent: int, readwrites: int)
    returns (iterations: nat, readsDone: nat, writesDone: nat)
    ensures iterations == if readwrites > 0 then readwrites else 0
    ensures readsDone == ReadsAfter(percent, iterations)
    ensures writesDone == WritesAfter(percent, iterations)
  {
    var getWeight, putWeight := 0, 0;
    iterations, readsDone, writesDone := 0, 0, 0;
    var duration := new Duration(0, readwrites);
    var done := duration.Done(1, 0);
    while !done
      invariant duration.maxSeconds == 0 && duration.maxOps == readwrites && fresh(duration)
      invariant duration.ops == iterations + 1 && (done <==> iterations + 1 > readwrites)
      invariant iterations <= if readwrites > 0 then readwrites else 0
      invariant getWeight == GetWeight(percent, iterations) && putWeight == PutWeight(percent, iterations)
      invariant readsDone == ReadsAfter(percent, iterations) && writesDone == WritesAfter(percent, iterations)
      decreases readwrites - iterations
    {
      NextIteration(percent, iterations);
      if getWeight == 0 && putWeight == 0 {
        getWeight := percent;
        putWeight := 100 - getWeight;
      }
      if getWeight > 0 {
        getWeight := getWeight - 1;
        readsDone := readsDone + 1;
      } else if putWeight > 0 {
        putWeight := putWeight - 1;
        writesDone := writesDone + 1;
      }
      iterations := iterations + 1;
      done := duration.Done(1, 0);
    }
  }

  /** How weights and counts go from k to k + 1 operations. */
  lemma NextIteration(percent: int, k: nat)
    ensures var refill := GetWeight(percent, k) == 0 && PutWeight(percent, k) == 0;
            var get := if refill then percent else GetWeight(percent, k);
            var put := if refill then 100 - percent else PutWeight(percent, k);
            && GetWeight(percent, k + 1) == (if get > 0 then get - 1 else get)
            && PutWeight(percent, k + 1) == (if get <= 0 && put > 0 then put - 1 else put)
            && ReadsAfter(percent, k + 1) == ReadsAfter(percent, k) + (if get > 0 then 1 else 0)
            && WritesAfter(percent, k + 1) == WritesAfter(percent, k) + (if get <= 0 && put > 0 then 1 else 0)
  {
    if 0 <= percent <= 100 {
      var q, m := k / 100, k % 100;
      if m == 99 {
        assert (k + 1) / 100 == q + 1 && (k + 1) % 100 == 0;
        assert (q + 1) * percent == q * percent + percent;
      } else {
        assert (k + 1) / 100 == q && (k + 1) % 100 == m + 1;
      }
    }
  }

  /** Every iteration does one operation, however long the loop, if and only if the
      percentage is one. */
  lemma NeverIdleExactly(percent: int)
    ensures (forall k: nat :: ReadsAfter(percent, k) + WritesAfter(percent, k) == k) <==> 0 <= percent <= 100
  {
    if percent < 0 {
      assert ReadsAfter(percent, 101 - percent) + WritesAfter(percent, 101 - percent) == 100 - percent;
    } else if percent > 100 {
      assert ReadsAfter(percent, percent + 1) + WritesAfter(percent, percent + 1) == percent;
    }
  }
}
