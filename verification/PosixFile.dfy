/**
  PosixWritableFile of bench/util/env_posix.cc: a 64 KiB buffer in front of a file, proved
  to refine a plain append-only byte string, over every pattern of short, interrupted and
  failing calls.
*/
module PosixFile {
  import opened Kernel

  /** kBufSize */
  const BUF_SIZE: nat := 65536

  lemma SliceStep(start: Bytes, p: Bytes, done: nat, n: nat)
    requires done + n <= |p|
    ensures start + p[..done] + p[done..][..n] == start + p[..done + n]
  {
    assert p[..done] + p[done..][..n] == p[..done + n];
  }

  /** The operations of a WritableFile. */
  datatype Op = AppendOp(data: Bytes) | FlushOp | SyncOp | CloseOp {
    function Data(): Bytes {
      if AppendOp? then data else []
    }
  }

  /** All the bytes appended by `ops`, in order. */
  function Appended(ops: seq<Op>): Bytes {
    if ops == [] then [] else Appended(ops[..|ops| - 1]) + ops[|ops| - 1].Data()
  }

  lemma AppendedNext(start: Bytes, ops: seq<Op>, k: nat)
    requires k < |ops|
    ensures start + Appended(ops[..k + 1]) == (start + Appended(ops[..k])) + ops[k].Data()
  {
    assert ops[..k + 1][..k] == ops[..k];
  }

  /** basename(name) starts with MANIFEST. */
  predicate IsManifest(name: string) {
    var base := Basename(name);
    "MANIFEST" <= base
  }

  /** What follows the last slash. */
  function Basename(name: string): (base: string)
    ensures |base| <= |name|
  {
    if name == [] then [] else
    if name[|name| - 1] == '/' then [] else Basename(name[..|name| - 1]) + [name[|name| - 1]]
  }

  /** What precedes the last slash; without one, the current directory. */
  function Dirname(name: string): string {
    if |Basename(name)| == |name| then "." else name[..|name| - |Basename(name)| - 1]
  }

  /** Directory and base name of dir/base and of base alone. */
  lemma {:induction false} NameParts(dir: string, base: string)
    requires '/' !in base
    ensures Basename(dir + "/" + base) == base && Dirname(dir + "/" + base) == dir
    ensures Basename(base) == base && Dirname(base) == "."
  {
    var name := dir + "/" + base;
    if base == "" {
      assert name[|name| - 1] == '/';
    } else {
      var k := |base| - 1;
      NameParts(dir, base[..k]);
      assert name[..|name| - 1] == dir + "/" + base[..k];
      assert base[..k] + [base[k]] == base;
    }
    assert name[..|dir|] == dir;
  }

  // ----- Subsequences -----

  /** `a` is `b` with some elements left out. */
  predicate IsSubsequence(a: Bytes, b: Bytes)
    decreases |b|
  {
    a == [] ||
    (b != [] &&
     (IsSubsequence(a, b[..|b| - 1]) ||
      (a[|a| - 1] == b[|b| - 1] && IsSubsequence(a[..|a| - 1], b[..|b| - 1]))))
  }

  lemma {:induction false} SubsequenceSelf(a: Bytes)
    ensures IsSubsequence(a, a)
  {
    if a != [] {
      SubsequenceSelf(a[..|a| - 1]);
    }
  }

  lemma {:induction false} SubsequenceExtend(a: Bytes, b: Bytes, d: Bytes)
    requires IsSubsequence(a, b)
    ensures IsSubsequence(a, b + d) && IsSubsequence(a + d, b + d)
    decreases |d|
  {
    if d == [] {
      assert a + d == a && b + d == b;
    } else {
      var k := |d| - 1;
      SubsequenceExtend(a, b, d[..k]);
      assert (a + d)[..|a + d| - 1] == a + d[..k];
      assert (b + d)[..|b + d| - 1] == b + d[..k];
    }
  }

  lemma {:induction false} SubsequencePrefix(a: Bytes, b: Bytes, c: Bytes)
    requires IsSubsequence(a, b) && c <= a
    ensures IsSubsequence(c, b)
    decreases |b|
  {
    if c != [] && c != a {
      if IsSubsequence(a, b[..|b| - 1]) {
        SubsequencePrefix(a, b[..|b| - 1], c);
      } else {
        assert c <= a[..|a| - 1];
        SubsequencePrefix(a[..|a| - 1], b[..|b| - 1], c);
      }
    }
  }

  /** One operation: the new stream is the old one, or a prefix of the old one and `d`. */
  lemma SubsequenceStep(before: Bytes, log: Bytes, d: Bytes, after: Bytes)
    requires IsSubsequence(before, log)
    requires after <= before + d || after == before
    ensures IsSubsequence(after, log + d)
  {
    SubsequenceExtend(before, log, d);
    if after <= before + d {
      SubsequencePrefix(before + d, log + d, after);
    }
  }

  // ----- The writer -----

  class PosixWritableFile {
    const machine: Machine
    const name: string
    const buf: array<Byte>
    var pos: nat
    var isOpen: bool     // fd_ >= 0

    ghost predicate Valid()
      reads this, machine, buf
    {
      buf.Length == BUF_SIZE && pos <= BUF_SIZE && name in machine.files
    }

    /** What the kernel has. */
    ghost function File(): Bytes
      requires Valid()
      reads this, machine, buf
    {
      machine.files[name]
    }

    /** What has been accepted: the file followed by the buffered bytes. */
    ghost function Stream(): Bytes
      requires Valid()
      reads this, machine, buf
    {
      File() + buf[..pos]
    }

    /** Around a descriptor that open() returned. */
    constructor (machine: Machine, name: string)
      requires name in machine.files
      ensures Valid() && isOpen && fresh(buf)
      ensures this.machine == machine && this.name == name
      ensures Stream() == File() == machine.files[name]
    {
      this.machine := machine;
      this.name := name;
      this.buf := new Byte[BUF_SIZE];
      this.pos := 0;
      this.isOpen := true;
    }

    /** Only this file changed, and it only grew. */
    twostate predicate OnlyGrew()
      requires old(Valid()) && Valid()
      reads this, machine, buf
    {
      && machine.files == old(machine.files)[name := File()]
      && old(File()) <= File()
    }

    /** How much is buffered after a successful Append of n bytes. */
    static function BufferedAfter(pos: nat, n: nat): nat {
      if pos + n <= BUF_SIZE then pos + n
      else if pos + n < 2 * BUF_SIZE then pos + n - BUF_SIZE
      else 0
    }

    /** The loop of writes: all of `p` on success, some prefix of it on an error. */
    method WriteRaw(p: Bytes) returns (ok: bool)
      requires Valid()
      modifies machine`files, machine`script, machine`failures
      ensures Valid() && OnlyGrew()
      ensures ok ==> File() == old(File()) + p
      ensures File() <= old(File()) + p
      ensures machine.failures == old(machine.failures) + if ok then 0 else 1
      ensures old(machine.Reliable()) ==> machine.Reliable() && (old(isOpen) ==> ok)
      ensures |machine.script| <= |old(machine.script)|
    {
      var done := 0;
      ghost var start := File();
      assert start + p[..0] == start;
      while done < |p|
        invariant done <= |p| && Valid()
        invariant machine.files == old(machine.files)[name := start + p[..done]]
        invariant |machine.script| <= |old(machine.script)|
        invariant machine.failures == old(machine.failures)
        invariant old(machine.Reliable()) ==> machine.Reliable()
        decreases |machine.script|, |p| - done
      {
        var r := machine.Write(name, p[done..], isOpen);
        match r {
          case Error => return false;
          case Eintr =>
          case Count(n) =>
            SliceStep(start, p, done, n);
            done := done + n;
        }
      }
      ok := true;
    }

    /** The buffer is given up even when the write fails. */
    method FlushBuffered() returns (ok: bool)
      requires Valid()
      modifies this`pos, machine`files, machine`script, machine`failures
      ensures Valid() && OnlyGrew() && pos == 0
      ensures ok ==> File() == old(Stream())
      ensures File() <= old(Stream())
      ensures machine.failures == old(machine.failures) + if ok then 0 else 1
      ensures old(machine.Reliable()) ==> machine.Reliable() && (old(isOpen) ==> ok)
    {
      ok := WriteRaw(buf[..pos]);
      pos := 0;
    }

    /** memcpy behind the buffered bytes. */
    method CopyIn(p: Bytes)
      requires Valid() && pos + |p| <= BUF_SIZE
      modifies this`pos, buf
      ensures Valid() && File() == old(File())
      ensures pos == old(pos) + |p|
      ensures Stream() == old(Stream()) + p
    {
      forall i | 0 <= i < |p| {
        buf[pos + i] := p[i];
      }
      pos := pos + |p|;
      assert buf[..pos] == old(buf[..pos]) + p;
    }

    method Append(data: Bytes) returns (ok: bool)
      requires Valid()
      modifies this`pos, buf, machine`files, machine`script, machine`failures
      ensures Valid() && OnlyGrew()
      ensures ok ==> Stream() == old(Stream()) + data
      ensures !ok ==> pos == 0 && File() <= old(Stream()) + data
      ensures machine.failures == old(machine.failures) + if ok then 0 else 1
      // What fits is only buffered; of the rest a short one is buffered, a long one written.
      ensures ok ==> pos == BufferedAfter(old(pos), |data|)
      ensures old(pos) + |data| <= BUF_SIZE ==> ok && machine.files == old(machine.files)
      ensures old(machine.Reliable()) ==> machine.Reliable() && (old(isOpen) ==> ok)
    {
      var copy := Min(|data|, BUF_SIZE - pos);
      CopyIn(data[..copy]);
      var rest := data[copy..];
      assert data == data[..copy] + rest;
      if rest == [] {
        return true;
      }
      ok := FlushBuffered();
      assert old(Stream()) + data == old(Stream()) + data[..copy] + rest;
      if !ok {
        return;
      }
      if |rest| < BUF_SIZE {
        CopyIn(rest);
        return true;
      }
      ok := WriteRaw(rest);
    }

    method Flush() returns (ok: bool)
      requires Valid()
      modifies this`pos, machine`files, machine`script, machine`failures
      ensures Valid() && OnlyGrew() && pos == 0
      ensures ok ==> File() == old(Stream())
      ensures File() <= old(Stream())
      ensures machine.failures == old(machine.failures) + if ok then 0 else 1
      ensures old(machine.Reliable()) ==> machine.Reliable() && (old(isOpen) ==> ok)
    {
      ok := FlushBuffered();
    }

    /** Open, sync and close the directory when this is a manifest; no file changes.  An error
        of that close is not reported. */
    method SyncDirIfManifest() returns (ok: bool)
      modifies machine`descriptors, machine`script, machine`failures, machine`dirSyncs
      ensures machine.descriptors == old(machine.descriptors)
      ensures machine.dirSyncs == old(machine.dirSyncs) + if ok && IsManifest(name) then [Dirname(name)] else []
      ensures if ok then machine.failures >= old(machine.failures) else machine.failures > old(machine.failures)
      ensures !IsManifest(name) ==> ok && machine.failures == old(machine.failures)
      ensures old(machine.Reliable()) ==> machine.Reliable() && ok
    {
      ok := true;
      if IsManifest(name) {
        ok := machine.OpenRead(Dirname(name), true);
        if ok {
          ok := machine.FsyncDir(Dirname(name));
          var ignored := machine.Close(true);
        }
      }
    }

    /** On a directory error nothing is written and the buffer is kept. */
    method Sync() returns (ok: bool)
      requires Valid()
      modifies this`pos
      modifies machine`files, machine`descriptors, machine`script, machine`failures, machine`durable, machine`dirSyncs
      ensures Valid() && OnlyGrew() && machine.descriptors == old(machine.descriptors)
      ensures ok ==> isOpen && pos == 0 && File() == old(Stream())
      ensures machine.durable == if ok then old(machine.durable)[name := File()] else old(machine.durable)
      ensures ok && IsManifest(name) ==> machine.dirSyncs == old(machine.dirSyncs) + [Dirname(name)]
      ensures if ok then machine.failures >= old(machine.failures) else machine.failures > old(machine.failures)
      ensures ok && !IsManifest(name) ==> machine.failures == old(machine.failures)
      ensures !ok ==> (pos == 0 && File() <= old(Stream())) || Stream() == old(Stream())
      ensures old(machine.Reliable()) ==> machine.Reliable() && (old(isOpen) ==> ok)
    {
      ok := SyncDirIfManifest();
      if !ok {
        return;
      }
      ok := FlushBuffered();
      if ok {
        ok := machine.Fdatasync(name, isOpen);
      }
    }

    method Close() returns (ok: bool)
      requires Valid()
      modifies this`pos, this`isOpen, machine`files, machine`descriptors, machine`script, machine`failures
      ensures ok <==> machine.failures == old(machine.failures)
      ensures machine.failures >= old(machine.failures)
      ensures Valid() && OnlyGrew() && pos == 0 && !isOpen
      ensures machine.descriptors == old(machine.descriptors) - if old(isOpen) then 1 else 0
      ensures ok ==> old(isOpen) && File() == old(Stream())
      ensures File() <= old(Stream())
      ensures old(machine.Reliable()) ==> machine.Reliable() && (old(isOpen) ==> ok)
    {
      ok := FlushBuffered();
      var closed := machine.Close(isOpen);
      ok := ok && closed;
      isOpen := false;
    }

    /** ~PosixWritableFile */
    method Destroy()
      requires Valid()
      modifies this`pos, this`isOpen, machine`files, machine`descriptors, machine`script, machine`failures
      ensures Valid() && OnlyGrew() && !isOpen
      ensures old(isOpen) && machine.failures == old(machine.failures) ==> File() == old(Stream())
      ensures machine.failures >= old(machine.failures)
      ensures File() <= old(Stream())
      ensures machine.descriptors == old(machine.descriptors) - if old(isOpen) then 1 else 0
      ensures !old(isOpen) ==> machine.files == old(machine.files) && machine.failures == old(machine.failures)
      ensures old(machine.Reliable()) ==> machine.Reliable()
    {
      if isOpen {
        var ignored := Close();
      }
    }

    method Perform(op: Op) returns (ok: bool)
      requires Valid()
      modifies this`pos, this`isOpen, buf, machine
      ensures Valid() && OnlyGrew()
      ensures ok ==> Stream() == old(Stream()) + op.Data()
      ensures ok && !op.AppendOp? ==> pos == 0 && File() == old(Stream())
      ensures !ok ==> (pos == 0 && File() <= old(Stream()) + op.Data()) || Stream() == old(Stream())
      ensures if ok then machine.failures >= old(machine.failures) else machine.failures > old(machine.failures)
      ensures old(machine.Reliable()) ==> machine.Reliable() && (old(isOpen) ==> ok)
    {
      match op {
        case AppendOp(data) => ok := Append(data);
        case FlushOp => ok := Flush();
        case SyncOp => ok := Sync();
        case CloseOp => ok := Close();
      }
    }

    /** The k-th operation, after the first k have been accepted. */
    method PerformNext(ops: seq<Op>, k: nat, ghost start: Bytes) returns (ok: bool)
      requires k < |ops| && Valid() && Stream() == start + Appended(ops[..k])
      modifies this`pos, this`isOpen, buf, machine
      ensures Valid() && OnlyGrew()
      ensures ok ==> Stream() == start + Appended(ops[..k + 1])
      ensures ok && !ops[k].AppendOp? ==> File() == Stream()
      ensures !ok ==> File() <= start + Appended(ops[..k + 1])
      ensures if ok then machine.failures >= old(machine.failures) else machine.failures > old(machine.failures)
    {
      AppendedNext(start, ops, k);
      ok := Perform(ops[k]);
      assert File() <= Stream();
    }

    /** Any sequence of operations up to its first error: `k` of them succeeded.  What was
        accepted is the initial contents followed by everything appended, a final Flush,
        Sync or Close leaves all of it in the file, and up to and including the first
        error the file is a prefix of it. */
    method PerformUntilError(ops: seq<Op>) returns (k: nat)
      requires Valid()
      modifies this`pos, this`isOpen, buf, machine
      ensures Valid() && OnlyGrew() && k <= |ops|
      ensures k == |ops| ==> Stream() == old(Stream()) + Appended(ops)
      ensures k == |ops| > 0 && !ops[k - 1].AppendOp? ==> File() == old(Stream()) + Appended(ops)
      ensures k < |ops| ==> File() <= old(Stream()) + Appended(ops[..k + 1])
      ensures k < |ops| ==> machine.failures > old(machine.failures)
    {
      k := 0;
      ghost var start, flushed := Stream(), false;
      assert start + Appended(ops[..0]) == start;
      while k < |ops|
        invariant k <= |ops| && Valid() && OnlyGrew()
        invariant Stream() == start + Appended(ops[..k])
        invariant machine.failures >= old(machine.failures)
        invariant flushed ==> File() == Stream()
        invariant k > 0 ==> flushed == !ops[k - 1].AppendOp?
        decreases |ops| - k
      {
        var ok := PerformNext(ops, k, start);
        if !ok {
          return;
        }
        flushed := !ops[k].AppendOp?;
        k := k + 1;
      }
      assert ops[..k] == ops;
    }

    method PerformOn(op: Op, ghost log: Bytes) returns (ok: bool)
      requires Valid() && IsSubsequence(Stream(), log)
      modifies this`pos, this`isOpen, buf, machine
      ensures Valid() && OnlyGrew()
      ensures IsSubsequence(Stream(), log + op.Data())
    {
      ghost var before := Stream();
      ok := Perform(op);
      SubsequenceStep(before, log, op.Data(), Stream());
    }

    /** Even when the caller goes on after errors, no byte is invented, duplicated or moved:
        file and buffer together are what was appended with some bytes missing. */
    method PerformAll(ops: seq<Op>) returns (results: seq<bool>)
      requires Valid()
      modifies this`pos, this`isOpen, buf, machine
      ensures Valid() && OnlyGrew() && |results| == |ops|
      ensures IsSubsequence(Stream(), old(Stream()) + Appended(ops))
    {
      results := [];
      var k := 0;
      ghost var start := Stream();
      SubsequenceSelf(start);
      assert start + Appended(ops[..0]) == start;
      while k < |ops|
        invariant k <= |ops| && Valid() && OnlyGrew() && |results| == k
        invariant IsSubsequence(Stream(), start + Appended(ops[..k]))
        decreases |ops| - k
      {
        var ok := PerformOn(ops[k], start + Appended(ops[..k]));
        results := results + [ok];
        AppendedNext(start, ops, k);
        k := k + 1;
      }
      assert ops[..k] == ops;
    }
  }
}
