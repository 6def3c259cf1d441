# A model of the benchmark suite and the persistent list

The repository is a lab on key-value stores in persistent memory: small programs over
persistent memory, and a benchmark driver, taken over from LevelDB, that measures a
store.  This project models the parts of it in which something can go subtly wrong, and
proves what those parts are for.

| file | what it models |
|---|---|
| `PersistentList.dfy` | the undo-log transaction of the linked-list example: crash atomicity over every run, every subset of written-back words and every interrupted recovery |
| `Barrier.dfy` | the start/finish barrier of the benchmark driver and its background writer: safety, lifetime of the shared state, no lost wake-up, bounded waiting |
| `BackgroundQueue.dfy` | the environment's background work queue: FIFO, exactly once, one consumer, no lost wake-up |
| `Limiter.dfy` | the resource limiter with its unlocked first read, and the files it guards: conservation |
| `Kernel.dfy`, `PosixFile.dfy`, `EnvFiles.dfy` | buffered file writing over a kernel that interrupts, fails and writes short, and the write/read round trip |
| `RandomGen.dfy` | the Lehmer generator: the division-free step and its full period of 2^31 - 2 |
| `HistogramSummary.dfy`, `HistogramPercentile.dfy`, `Histogram.dfy` | the latency histogram over real numbers: merge homomorphism, percentile accuracy, non-negative variance |
| `Decimal.dfy` | printing and parsing 64-bit decimal numbers |
| `Keys.dfy`, `Workload.dfy`, `ReadWriteMix.dfy` | the keys, the sequential workloads in every interleaving, and the read/write mix |
| `Counting.dfy` | sums over sequences, used for the barrier, the limiter and the workloads |

`dafny verify dfyconfig.toml` verifies everything.

## How to read the models

Concurrent code is a step system: a `State`, a `Step`, `Enabled`, `Apply`, and `IsRun`
for any finite sequence of steps from the initial state.  A thread waiting on a
condition variable is asleep, then woken, then has to take the mutex again, as section
`pthread_cond_wait` of POSIX.1-2017 (System Interfaces) describes; spurious wake-ups are
steps and may happen at any time.  Safety theorems quantify over all runs.

Persistent memory is kept twice: `vol` is what the processor sees, `per` is what a crash
leaves.  `TX_ADD` makes a durable snapshot, any set of words may be written back at any
moment, commit writes the snapshotted and the new words back and then retires the log,
and recovery puts the snapshots back.  `Recovered` is what recovery would make of the
durable image now; `Committed` counts the retired commits of a run.

Code that updates fields in place is a class: `Random`, `PosixWritableFile`,
`Histogram`, `Duration`, `Pool`.  The operating system is the class `Machine`, whose
behaviour is read off a script of responses; it records which calls failed and what was
synced.

Where the code and its text differ, the code is followed:

- `Duration::Done` compares elapsed milliseconds with a limit in seconds; so does
  `Duration.Done`.
- A comment in `ReadRandomWriteRandom` promises one batch after another.  For a
  percentage outside 0..100 the loop falls idle after its first batch;
  `NeverIdleExactly` says that the percentages from 0 to 100 are exactly those for which
  it never does.
- `GenerateKeyFromInt` is used as if it were injective.  It is, for the indices below a
  limit, exactly under the condition in `DistinctKeysExactly`.
- `Percentile` divides by zero exactly under the condition in `DividesByZeroExactly`;
  `ResultExactly` says what it then returns, and when that is not a number.

## Model

| member | source | states |
|---|---|---|
| `PersistentList.CrashAtomicity` | example/linked_list.c:68-109 | from any well-formed list, after any run with commits, aborts, write-backs of any words, crashes at any point and interrupted recoveries, recovery yields exactly the old list followed by one 100 for each retired commit, and the allocated elements are exactly those of the list |
| `PersistentList.OneTransaction` | example/linked_list.c:68-99 | within one transaction recovery gives the old list until the commit is retired and afterwards the old list, element by element, with one new element holding 100 at its end; nothing else is possible |
| `PersistentList.ListOverManyRuns` | example/linked_list.c:58-121 | after any sequence of program runs on a new pool, between two transactions the list is whole: distinct elements, right head and tail, head null iff tail null, count equal to its length and to the number of commits, nothing leaked |
| `PersistentList.StepKeepsInv` | example/linked_list.c:66-109 | each statement, write-back, crash and recovery step keeps: recovery would give exactly this list, and the program's logging discipline holds |
| `PersistentList.StepKeepsRecovered` | example/linked_list.c:75-97 | no step before the retirement of the commit log changes what recovery would yield, word by word |
| `PersistentList.StepKeepsUntouched` | example/linked_list.c:81-97 | every in-place store to a live object hits a word that was snapshotted before: words without a snapshot agree in both copies |
| `PersistentList.CacheActs` | example/linked_list.c:68-99 | between any two statements a write-back makes exactly the words it names durable, and a crash loses exactly what is not durable |
| `PersistentList.ReplayActs` | example/linked_list.c:41-51 | recovery on reopening puts back exactly the snapshots it has got to, in any order and in any number of attempts |
| `PersistentList.StoreKeepsExpected` | example/linked_list.c:78-97 | in the middle of the transaction every word of the list is its old value, except the link, the tail and the count as far as they have been written |
| `PersistentList.AppendedList` | example/linked_list.c:84-97 | linking a zeroed fresh element behind the last one, or to the head of an empty list, moving the tail and counting up turns the list into the list with that element at its end |
| `PersistentList.RetireKeepsInv` | example/linked_list.c:99-99 | retiring the log switches from the old list to the list with the new element, and makes the element live, in one step |
| `PersistentList.RunKeepsInv` | example/linked_list.c:58-121 | the invariant holds along every run, with a chain that only grows |
| `PersistentList.CommitsOnce` | example/linked_list.c:68-109 | a transaction retires at most one commit |
| `PersistentList.ListUnique` | example/linked_list.c:15-25 | a memory image holds at most one list, so what recovery yields is determined |
| `PersistentList.ListFrame` | example/linked_list.c:15-25 | the list depends on the words of the root and of its elements only |
| `PersistentList.QuiescentIsInv` | example/linked_list.c:112-115 | between transactions the invariant says exactly: no log, both copies agree on the list, the live elements are those of the list |
| `PersistentList.Scan` | example/linked_list.c:115-121 | on any well-formed list the pointer walk terminates, having visited exactly the values in list order |
| `PersistentList.Pool.constructor` | example/linked_list.c:58-58 | a new pool holds the empty list |
| `PersistentList.Pool.Append` | example/linked_list.c:66-112 | the transaction block, for any results of TX_ZNEW and the TX_ADDs and any words written back between any two statements: it commits iff the calls it makes succeed, leaves the list with 100 appended if so and the old list if not |
| `PersistentList.Pool.Commit` | example/linked_list.c:93-99 | the end of the block commits the linked element |
| `PersistentList.Pool.Abort` | example/linked_list.c:103-105 | an abort leaves the old list in both copies and no log |
| `PersistentList.Pool.Do` | example/linked_list.c:68-97 | one statement, followed by the write-back of any words, keeps the invariant |
| `RandomGen.FullPeriod` | bench/util/random.h:28-33 | from every good seed repeated Next visits every number in [1, 2^31 - 2] exactly once in 2^31 - 2 calls and is then back where it began |
| `RandomGen.Order` | bench/util/random.h:28-33 | the multiplicative order of 16807 modulo 2^31 - 1 is 2^31 - 2: the k-th power is 1 only for k = 0 and k = 2^31 - 2 |
| `RandomGen.PowersCover` | bench/util/random.h:28-33 | every good seed is a power of 16807 |
| `RandomGen.OrbitMul` | bench/util/random.h:28-34 | j further calls multiply the seed by 16807^j |
| `RandomGen.FoldIsStep` | bench/util/random.h:34-44 | the shift, the addition, the casts and one conditional subtraction give seed * 16807 mod (2^31 - 1) for every good seed, and keep 0 and 2^31 - 1 |
| `RandomGen.StepIsGood` | bench/util/random.h:31-40 | a good seed is never followed by 0 or 2^31 - 1 |
| `RandomGen.Random.constructor` | bench/util/random.h:19-24 | any argument gives a good seed: its low 31 bits, or 1 when these are 0 or 2^31 - 1 |
| `RandomGen.Random.Next` | bench/util/random.h:25-45 | the field becomes the modular product and is returned; good seeds stay good, the two bad ones stay where they are |
| `Barrier.StartsTogether` | bench/bench.cc:610-623 | in every run, no worker is in its method or past it before all n have initialised |
| `Barrier.Lifetime` | bench/bench.cc:624-671 | once RunBenchmark has passed its final unlock, every worker has stopped its clock, counted itself exactly once and left, the mutex is free and no thread can take another step on the shared state |
| `Barrier.WriterExit` | bench/bench.cc:792-800 | whenever the background writer tests, it leaves its loop iff all other n - 1 threads have counted themselves done |
| `Barrier.WriterIsLast` | bench/bench.cc:792-828 | in every run of readwhilewriting, thread 0 is past its method only when all the others have counted themselves done |
| `Barrier.Roles` | bench/bench.cc:822-828 | in every run, exactly thread 0 of readwhilewriting is the background writer, and every other thread runs its reading method |
| `Barrier.EveryoneRan` | bench/bench.cc:621-624 | whoever is past its method has been in it: no thread skips it |
| `Barrier.AtMostOneLatePut` | bench/bench.cc:792-818 | once all other threads have counted themselves done the writer does at most one more put, the one it had already decided on; every other put happens while some reader is unfinished |
| `Barrier.NotStuck` | bench/bench.cc:610-662 | until RunBenchmark is through, some thread can move without a spurious wake-up, in every state that satisfies the invariant |
| `Barrier.StuckMeansDone` | bench/bench.cc:610-662 | a run that can only go on by a spurious wake-up, or not at all, has brought RunBenchmark to its end |
| `Barrier.StepMeasure` | bench/bench.cc:610-662 | every step lowers a measure of phases and pending SignalAlls, except spurious wake-ups and the writer's puts, which raise it by at most two |
| `Barrier.RunsAreBounded` | bench/bench.cc:610-662 | the length of every run is at most the initial measure plus three times the number of its spurious wake-ups and background puts |
| `Barrier.EndIsBounded` | bench/bench.cc:610-662 | once all workers but the background writer have counted themselves, only spurious wake-ups can delay the end: the rest of the run is bounded by the measure and their number |
| `Barrier.StepKeepsInv` | bench/bench.cc:606-662 | each step keeps mutual exclusion, both counts, the order of the phases, and: whoever sleeps still has something to wait for |
| `Barrier.RunKeepsInv` | bench/bench.cc:606-662 | the invariant holds in every reachable state, for every n |
| `Barrier.SignalAllRestores` | bench/bench.cc:612-618 | a SignalAll leaves no sleeper who could have missed it |
| `Barrier.EveryoneGone` | bench/bench.cc:659-662 | when RunBenchmark holds the mutex and sees num_done at n, every worker has released the mutex for the last time |
| `BackgroundQueue.FifoExactlyOnce` | bench/util/env_posix.cc:665-705 | in every run of any number of callers: scheduled = executed ++ in flight ++ queued, in order; at most one consumer; it sleeps only with nothing left to do |
| `BackgroundQueue.NothingLost` | bench/util/env_posix.cc:665-688 | in every run each item was called, counted from the calls alone, as often as it was scheduled or still has to be pushed by a call in flight |
| `BackgroundQueue.StuckMeansExecuted` | bench/util/env_posix.cc:665-705 | a run that cannot go on without a new call or a spurious wake-up has executed each item exactly as often as it was called, in the order of the pushes |
| `BackgroundQueue.NotStuck` | bench/util/env_posix.cc:665-705 | until every call has returned and every item is executed, some thread can move without a new call or a spurious wake-up |
| `BackgroundQueue.RunsAreBounded` | bench/util/env_posix.cc:665-705 | the length of every run is bounded by its calls and spurious wake-ups, so Schedule returns and the queue is worked off |
| `BackgroundQueue.StepKeepsInv` | bench/util/env_posix.cc:665-705 | each step keeps the above, mutual exclusion, and that nobody sleeps between a caller's signal and its push |
| `BackgroundQueue.SignalKeepsInv` | bench/util/env_posix.cc:676-680 | signalling only an empty queue, and before the push, loses no wake-up, whichever sleepers the signal wakes |
| `BackgroundQueue.RunKeepsInv` | bench/util/env_posix.cc:665-705 | the invariant holds in every reachable state |
| `BackgroundQueue.WorkIsNotStuck` | bench/util/env_posix.cc:665-705 | while there is work, a caller inside the mutex or the background thread can move without a spurious wake-up |
| `BackgroundQueue.WorkAdvances` | bench/util/env_posix.cc:690-705 | while there is work, each step of the background thread brings it nearer to taking the first item or takes it, and no other step sets it back or reorders the queue |
| `Limiter.Conservation` | bench/util/env_posix.cc:52-97 | in every interleaving of loads, stores, locks and unlocks: permits left + permits of calls in flight + live files = limit, for both limiters; the counter stays in [0, limit], and a negative limit grants nothing |
| `Limiter.TestsAreExact` | bench/util/env_posix.cc:61-73 | the unlocked check goes on, and the test under the mutex grants, iff a permit is left at that moment; a refusal stays justified until the mutex is released |
| `Limiter.TempOnlyAfterBoth` | bench/util/env_posix.cc:402-428 | in every run a file is opened anew for every read only when all descriptor permits were taken and, earlier in the same call, all mapping permits |
| `Limiter.SecondAfterFirst` | bench/util/env_posix.cc:409-426 | a permanent descriptor is asked for only after all mapping permits were found taken in the same call |
| `Limiter.CallsConserved` | bench/util/env_posix.cc:402-428 | in every run the opens, counted from the steps, are the live files, the deletions, the failed mappings and the calls in flight: every call makes exactly one file or reports one failure |
| `Limiter.RunsAreBounded` | bench/util/env_posix.cc:61-80 | the length of every run is bounded by the number of calls begun: no call goes on for ever |
| `Limiter.NotStuck` | bench/util/env_posix.cc:61-80 | while a call is in flight some thread can go on; the two mutexes never block each other |
| `Limiter.DescriptorsBounded` | bench/util/env_posix.cc:143-182 | the descriptors held by live files, by calls of NewRandomAccessFile in flight and by reads of files that are opened on every access never exceed the limit plus one per thread |
| `Limiter.StepKeepsInv` | bench/util/env_posix.cc:61-80 | each step keeps conservation, range, mutual exclusion and the freshness of a value loaded under the mutex |
| `Limiter.AcquireRespects` | bench/util/env_posix.cc:61-73 | a step of Acquire, with its unlocked check, changes the counter only under the mutex and turns one permit into one held |
| `Limiter.ReleaseRespects` | bench/util/env_posix.cc:77-80 | a step of Release gives exactly the held permit back |
| `Limiter.FileRespects` | bench/util/env_posix.cc:402-428 | opening, mapping, failing to map and deleting files move permits between calls and files and lose none |
| `Limiter.RunKeepsInv` | bench/util/env_posix.cc:52-97 | the invariant holds in every reachable state, for any limits and number of threads |
| `PosixFile.PosixWritableFile.constructor` | bench/util/env_posix.cc:228-229 | a new writer has an empty buffer in front of the file |
| `PosixFile.PosixWritableFile.WriteRaw` | bench/util/env_posix.cc:330-343 | for every pattern of short, interrupted and failing writes: all the bytes on success, a prefix of them on an error, success iff no write failed, and the loop ends |
| `PosixFile.PosixWritableFile.FlushBuffered` | bench/util/env_posix.cc:324-328 | on success the file is everything accepted, on an error a prefix of it; the buffer is given up either way |
| `PosixFile.PosixWritableFile.Append` | bench/util/env_posix.cc:238-265 | on success file ++ buffer grows by exactly the data; what fits is only buffered, a short rest is buffered after a flush, a long one written; on an error the file is a prefix of that; success iff no call failed |
| `PosixFile.PosixWritableFile.Flush` | bench/util/env_posix.cc:277-279 | a successful Flush leaves everything in the file |
| `PosixFile.PosixWritableFile.SyncDirIfManifest` | bench/util/env_posix.cc:281-306 | the directory of a manifest, and of no other file, is synced; its descriptor is closed on every path, a failing open or fsync is reported, and no file changes |
| `PosixFile.NameParts` | bench/util/env_posix.cc:282-292 | directory and base name of dir/base are dir and base, and of a name without a slash the current directory and the name |
| `PosixFile.PosixWritableFile.Sync` | bench/util/env_posix.cc:308-321 | a successful Sync leaves everything in the file and has made exactly that durable, after the directory of a manifest; every failing call but the close of the directory is reported; after an error of the directory nothing has changed |
| `PosixFile.PosixWritableFile.Close` | bench/util/env_posix.cc:267-275 | a successful Close leaves everything in the file; it succeeds iff neither a write nor the close failed; the descriptor is given up on every path and only once |
| `PosixFile.PosixWritableFile.Destroy` | bench/util/env_posix.cc:231-236 | the destructor flushes and closes a descriptor that is still open, and does nothing to a closed file |
| `PosixFile.PosixWritableFile.PerformUntilError` | bench/util/env_posix.cc:219-344 | for every sequence of operations: while all succeed, file ++ buffer is the initial contents and all appended data; after a final Flush, Sync or Close it is all in the file; up to and including the first error the file is a prefix of it |
| `PosixFile.PosixWritableFile.PerformAll` | bench/util/env_posix.cc:219-344 | even if the caller goes on after errors, file ++ buffer is a subsequence of what was appended: no byte is invented, repeated or moved |
| `EnvFiles.NewWritableFile` | bench/util/env_posix.cc:430-441 | a new empty file and one more descriptor, or nothing changed |
| `EnvFiles.NewAppendableFile` | bench/util/env_posix.cc:443-454 | the writer starts with the contents the file has, or with none; no other file changes |
| `EnvFiles.DoWriteStringToFile` | bench/util/env.cc:40-60 | on success the file is the string, durable if asked for, and no other file changed; on every path the descriptor is closed exactly once; after an error the file is gone, unless the deletion failed as well, when it is a prefix of the string, or the open was what failed, when nothing changed; every failure is reported |
| `EnvFiles.AppendAndClose` | bench/util/env.cc:48-55 | from the open file to its destruction: the whole string on success, a prefix otherwise, durable if asked for, and the descriptor is closed exactly once |
| `EnvFiles.PosixSequentialFile.Read` | bench/util/env_posix.cc:109-124 | the bytes that follow the offset, at most n of them; when n > 0, none only at the end of the file; interruptions are retried |
| `EnvFiles.ReadFileToString` | bench/util/env.cc:72-95 | the loop ends; on success the string is the whole file, on an error a prefix of it; the descriptor is closed on every path; without failing calls it succeeds iff the file exists |
| `EnvFiles.WriteThenRead` | bench/util/env.cc:40-95 | if both report success the string read is the string written, for every length and every split into short writes and reads |
| `Summaries.TableIsOrdered` | bench/util/histogram.cc:12-31 | the bucket limits are 154, increasing and positive |
| `Summaries.TableValues` | bench/util/histogram.cc:12-31 | the limits one by one: 1 to 9, the sixteen from 10 to 90, every later one ten times the limit sixteen places before, and the last one |
| `Summaries.BucketMeaning` | bench/util/histogram.cc:45-49 | the linear search finds the bucket in whose span the value lies |
| `Summaries.BucketMonotone` | bench/util/histogram.cc:45-49 | larger values never lie in earlier buckets |
| `Summaries.SummarizeAdd` | bench/util/histogram.cc:44-56 | Add turns the summary of the samples into the summary of the samples and the value |
| `Summaries.SummarizeConcat` | bench/util/histogram.cc:58-67 | merging two summaries gives the summary of all the samples |
| `Summaries.SummarizePermutation` | bench/util/histogram.cc:44-67 | the summary depends on the multiset of samples only |
| `Summaries.FieldsAreSummary` | bench/util/histogram.cc:33-67 | after any tree of Clear, Add and Merge the fields are the summary of the samples at its leaves |
| `Summaries.BuildOrderIrrelevant` | bench/util/histogram.cc:33-67 | two trees over the same multiset of samples leave the same fields |
| `Summaries.SummaryBounds` | bench/util/histogram.cc:51-53 | num_ is the number of samples, and min_ and max_ bound them all |
| `Summaries.SummaryExtremes` | bench/util/histogram.cc:51-52 | min_ is the smallest of the samples and the last limit, max_ the largest of the samples and zero; for samples in the table's range both are samples |
| `Summaries.SummarySums` | bench/util/histogram.cc:54-55 | sum_ and sum_squares_ are the sums of the samples and of their squares |
| `Summaries.SampleVariance` | bench/util/histogram.cc:99-103 | sum_squares_ * num_ >= sum_ * sum_ for every non-empty sequence of samples, and the argument of the square root is the mean squared distance from the mean |
| `Percentiles.DividesByZeroExactly` | bench/util/histogram.cc:73-84 | the interpolation divides by zero iff the threshold is not positive and the first bucket is empty |
| `Percentiles.ResultExactly` | bench/util/histogram.cc:73-92 | what is returned in every case: the percentile unless a division by zero occurs; min_ for a negative threshold over an empty first bucket; not a number iff the threshold is zero and the first bucket is empty |
| `Percentiles.EmptyIsNotANumber` | bench/util/histogram.cc:112-114 | an empty histogram divides by zero and returns not a number for every p, also for the median that ToString prints |
| `Percentiles.ResultInRange` | bench/util/histogram.cc:73-92 | with samples, for every p, the result is a number in [min_, max_], except that p = 0 over an empty first bucket gives not a number |
| `Percentiles.RankBucket` | bench/util/histogram.cc:75-78 | the bucket at which the running sum reaches the threshold is the bucket of the sample of that rank |
| `Percentiles.PrefixCounts` | bench/util/histogram.cc:75-77 | the running sum over the buckets counts the samples that lie in them |
| `Percentiles.PercentileHasRank` | bench/util/histogram.cc:74-74 | the threshold is the rank of the exact p-th percentile: less than p percent of the samples lie below it, at least p percent do not lie above |
| `Percentiles.PercentileExists` | bench/util/histogram.cc:74-74 | every non-empty sequence of samples has an exact p-th percentile, for 0 < p <= 100 |
| `Percentiles.RankExists` | bench/util/histogram.cc:74-74 | for every threshold from above 0 to the number of samples there is a sample of that rank |
| `Percentiles.InterpolateInSpan` | bench/util/histogram.cc:80-85 | for a positive threshold the interpolated value lies in the closed span of its bucket |
| `Percentiles.InterpolateIsLinear` | bench/util/histogram.cc:80-85 | within a bucket the value moves in proportion to the threshold, from the left limit at the running sum before the bucket to the right limit at the one after it |
| `Percentiles.PercentileOnLine` | bench/util/histogram.cc:73-92 | the result exactly: on that line, in the bucket of the exact percentile, at p percent of the samples, brought into [min_, max_] |
| `Percentiles.PercentileInRange` | bench/util/histogram.cc:86-87 | the result lies in [min_, max_] whenever there are samples and no division by zero |
| `Percentiles.PercentileAccuracy` | bench/util/histogram.cc:73-92 | for samples in [0, 1e200) and 0 < p <= 100 nothing is divided by zero and the result lies in the closed span of the bucket of the exact p-th percentile, which is defined from the samples and p alone, so it errs by at most that bucket's width |
| `Percentiles.PercentileMonotone` | bench/util/histogram.cc:73-92 | the result grows with p, for all p > 0 |
| `Percentiles.BucketsSumToNum` | bench/util/histogram.cc:50-53 | the buckets add up to num_ |
| `Histogram.Histogram.Clear` | bench/util/histogram.cc:33-42 | the fields become the summary of no samples |
| `Histogram.Histogram.Add` | bench/util/histogram.cc:44-56 | the fields stay the summary of the samples, with the value added at the end |
| `Histogram.Histogram.Merge` | bench/util/histogram.cc:58-67 | the fields become the summary of both sequences of samples, also when a histogram is merged into itself |
| `Histogram.Histogram.Percentile` | bench/util/histogram.cc:73-92 | the loop computes the result of the samples' summary, for every histogram and every p, divisions by zero included |
| `Histogram.Histogram.VarianceOfSamples` | bench/util/histogram.cc:99-102 | what is passed to sqrt is never negative and is the mean squared distance of the samples from their mean |
| `Decimal.ConsumeDecimalNumber` | bench/util/logging.cc:48-71 | succeeds iff the maximal leading run of digits is not empty and its value is at most 2^64 - 1; returns that value and leaves what follows; on overflow stops before the first digit too many; never wraps |
| `Decimal.OverflowExactly` | bench/util/logging.cc:57-63 | the test before taking in a digit holds iff the new value exceeds 64 bits |
| `Decimal.OverflowStays` | bench/util/logging.cc:58-61 | further digits do not undo an overflow, so the early return decides the whole run |
| `Decimal.NumberToString` | bench/util/logging.cc:16-40 | digits without a leading zero that denote the number |
| `Decimal.PrintThenParse` | bench/util/logging.cc:36-71 | parsing the printed number and any text not starting with a digit gives back the number and the text, for every 64-bit number |
| `Keys.GenerateKeyFromInt` | bench/bench.cc:509-519 | fills the buffer with the first bytes of the integer in memory and pads it with the digit 0 |
| `Keys.KeyMeaning` | bench/bench.cc:513-518 | the first bytes hold the integer modulo 256^n on a little-endian machine and its high end on a big-endian one; every byte from the ninth on is the digit 0 |
| `Keys.KeyInjective` | bench/bench.cc:509-519 | integers below the limit with the same key are the same, when the keys suffice |
| `Keys.DistinctKeysExactly` | bench/bench.cc:509-519 | all integers below a limit have distinct keys iff the key has 8 bytes, or there is at most one integer, or the machine is little-endian and the limit is at most 256^key_size |
| `Workload.FillSeqResult` | bench/bench.cc:693-722 | every interleaving of T fillseq threads leaves exactly the keys of the indices 0 to T * num - 1, with the given value; they number T * num iff the keys of these indices are distinct |
| `Workload.FillSeqWithGeneratedKeys` | bench/bench.cc:704-709 | for the benchmark's own keys every finished fill leaves T * num entries iff the keys are long enough for T * num indices; the keys and the values as in FillSeqResult |
| `Workload.PutKeepsInv` | bench/bench.cc:704-709 | whichever thread moves, the store holds exactly the keys put so far with the given value, one entry for each put when the keys are distinct |
| `Workload.KeysAreDistinct` | bench/bench.cc:705-706 | no two threads, and no two operations of one thread, use the same key |
| `Workload.ReadSeq` | bench/bench.cc:728-750 | after fillseq a reader with reads <= num finds every key it asks for; one that reads on finds exactly the indices that are left |
| `Workload.DeleteSeqResult` | bench/bench.cc:760-773 | every interleaving of deleteseq threads removes exactly the keys of the indices below T * num, hence empties what fillseq made |
| `ReadWriteMix.Duration.Done` | bench/bench.cc:340-356 | the count grows by at least one; without a time limit the answer is exact, with one the clock is asked only when the count passes a multiple of 1000 |
| `ReadWriteMix.ReadRandomWriteRandom` | bench/bench.cc:830-878 | without a time limit the loop runs max(0, readwrites) times, and for a percentage r in 0..100 does (k/100)*r + min(k%100, r) reads in k iterations and writes in the others; also exact for any other percentage |
| `ReadWriteMix.NextIteration` | bench/bench.cc:847-878 | how the two weights and the two counts go from k to k + 1 iterations |
| `ReadWriteMix.NeverIdleExactly` | bench/bench.cc:847-878 | every iteration does one operation, however long the loop, iff the percentage is in 0..100 |

## Left out

- src/pmkv.c and src/pmemkv.c: stubs, and a wrapper around a library; the workloads run over an atomic map instead.
- The internals of PMDK (allocator, pool layout, PMEMmutex, consistency check): only what a transaction promises is modelled.
- The other programs under example/: they call the library and have no algorithm of their own.
- The 32-bit overflow of num_elements after 2^31 appends.
- Memory ordering weaker than sequential consistency: loads and stores are atomic steps.
- What happens inside pthread_mutex_unlock: releasing a mutex is one step, after which the thread does not touch it again.
- The bodies of the benchmark methods in the barrier model: they end, except the background writer's loop, which is modelled.
- Endless interruptions: a run of the kernel has finitely many interrupted, failing and short calls, of any number and in any order, before all calls succeed.
- Files known to the kernel by anything but one name, and other processes that change them.
- Crashes of the file system: what a successful fdatasync covered is recorded, but nothing is ever lost.
- PosixSequentialFile::Skip, the bytes returned by the Read methods of PosixRandomAccessFile and PosixMmapReadableFile, directory operations, and an open that fails in NewRandomAccessFile.
- LockFile and UnlockFile: the kernel drops record locks when any descriptor of the file is closed, so ownership does not follow from this code.
- Floating-point rounding in the histogram, sqrt itself, Average, Median and ToString: arithmetic is over real numbers, extended by the infinities and not-a-number where Percentile divides.
- The random workloads, the statistics and their printing, flags, clocks and the messages written to standard output.
- 32-bit overflow of i + tid * num in the workloads: excluded by the bound in FillSeqWithGeneratedKeys, ignored by the others.
- Status values: an operation reports success or failure, not which error.
