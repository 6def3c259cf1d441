/**
  The operating system as bench/util/env_posix.cc sees it: files, descriptors and calls
  that may be interrupted, fail or do only part of the work.

  How the calls behave is read off a script.  A finite script stands for any finite
  pattern of interruptions, errors and short transfers; once it is used up, every call
  does all it was asked to do.
*/
module Kernel {

  type Byte = bv8
  type Bytes = seq<Byte>

  datatype Response = Interrupted | Failed | Partial(count: nat) | Complete

  /** The result of read and write: EINTR, another error, or a byte count. */
  datatype Transfer = Eintr | Error | Count(n: nat)

  function Min(a: nat, b: nat): nat {
    if a < b then a else b
  }

  class Machine {
    var files: map<string, Bytes>
    var descriptors: int             // open descriptors of this process
    var script: seq<Response>
    var failures: nat                // calls that reported an error, EINTR aside
    var durable: map<string, Bytes>  // what the last successful fdatasync of a file covered
    var dirSyncs: seq<string>        // directories synced, in order
    var failedUnlinks: nat           // how many of the failures were an unlink

    constructor (files: map<string, Bytes>, script: seq<Response>)
      ensures this.files == files && this.script == script && descriptors == 0
      ensures failures == 0 && durable == map[] && dirSyncs == [] && failedUnlinks == 0
    {
      this.files := files;
      this.script := script;
      this.descriptors := 0;
      this.failures := 0;
      this.durable := map[];
      this.dirSyncs := [];
      this.failedUnlinks := 0;
    }

    /** No call fails any more. */
    predicate Reliable()
      reads this`script
    {
      Failed !in script
    }

    /** How the next call behaves. */
    method Take() returns (r: Response)
      modifies this`script
      ensures old(Reliable()) ==> Reliable() && r != Failed
      ensures r != Complete ==> |script| < |old(script)|
      ensures |script| <= |old(script)|
    {
      if script == [] {
        r := Complete;
      } else {
        r, script := script[0], script[1..];
      }
    }

    /** write(fd, p, n) at the end of the file; EBADF when the descriptor is not open. */
    method Write(name: string, p: Bytes, isOpen: bool) returns (r: Transfer)
      requires name in files && p != []
      modifies this`files, this`script, this`failures
      ensures failures == old(failures) + if r.Error? then 1 else 0
      ensures !isOpen ==> r.Error?
      ensures r.Count? ==> r.n <= |p| && files == old(files)[name := old(files[name]) + p[..r.n]]
      ensures !r.Count? ==> files == old(files)
      ensures old(Reliable()) ==> Reliable() && (isOpen ==> r != Error)
      ensures |script| <= |old(script)|
      ensures isOpen && r != Count(|p|) ==> |script| < |old(script)|
    {
      if !isOpen {
        failures := failures + 1;
        return Error;
      }
      var resp := Take();
      match resp {
        case Interrupted => r := Eintr;
        case Failed => r := Error;
        case Partial(c) => r := Count(Min(c, |p|));
        case Complete => r := Count(|p|);
      }
      if r.Count? {
        files := files[name := files[name] + p[..r.n]];
      } else if r.Error? {
        failures := failures + 1;
      }
    }

    /** read(fd, buf, n) at an offset; zero bytes mean the end of the file. */
    method Read(name: string, offset: nat, n: nat) returns (r: Transfer)
      requires name in files && offset <= |files[name]|
      modifies this`script, this`failures
      ensures failures == old(failures) + if r.Error? then 1 else 0
      ensures r.Count? ==> r.n <= n && offset + r.n <= |files[name]|
      ensures r.Count? && n > 0 ==> (r.n == 0 <==> offset == |files[name]|)
      ensures old(Reliable()) ==> Reliable() && r != Error
      ensures !r.Count? ==> |script| < |old(script)|
    {
      var most := Min(n, |files[name]| - offset);
      var resp := Take();
      match resp {
        case Interrupted => r := Eintr;
        case Failed => r, failures := Error, failures + 1;
        case Partial(c) => r := Count(if c == 0 then Min(1, most) else Min(c, most));
        case Complete => r := Count(most);
      }
    }

    /** A call that only succeeds or fails, and fails when it is not `possible`. */
    method Simple(possible: bool) returns (ok: bool)
      modifies this`script, this`failures
      ensures failures == old(failures) + if ok then 0 else 1
      ensures ok ==> possible
      ensures old(Reliable()) ==> Reliable() && ok == possible
    {
      var resp := Take();
      ok := resp != Failed && possible;
      if !ok {
        failures := failures + 1;
      }
    }

    /** fdatasync(fd) */
    method Fdatasync(name: string, isOpen: bool) returns (ok: bool)
      requires name in files
      modifies this`script, this`failures, this`durable
      ensures failures == old(failures) + if ok then 0 else 1
      ensures durable == if ok then old(durable)[name := files[name]] else old(durable)
      ensures ok ==> isOpen
      ensures old(Reliable()) ==> Reliable() && ok == isOpen
    {
      ok := Simple(isOpen);
      if ok {
        durable := durable[name := files[name]];
      }
    }

    /** fsync(fd) of an open directory */
    method FsyncDir(dir: string) returns (ok: bool)
      modifies this`script, this`failures, this`dirSyncs
      ensures failures == old(failures) + if ok then 0 else 1
      ensures dirSyncs == old(dirSyncs) + if ok then [dir] else []
      ensures old(Reliable()) ==> Reliable() && ok
    {
      ok := Simple(true);
      if ok {
        dirSyncs := dirSyncs + [dir];
      }
    }

    /** open(O_TRUNC | O_WRONLY | O_CREAT) */
    method OpenTruncate(name: string) returns (ok: bool)
      modifies this`files, this`descriptors, this`script, this`failures
      ensures old(Reliable()) ==> Reliable() && ok
      ensures failures == old(failures) + if ok then 0 else 1
      ensures ok ==> files == old(files)[name := []] && descriptors == old(descriptors) + 1
      ensures !ok ==> files == old(files) && descriptors == old(descriptors)
    {
      ok := Simple(true);
      if ok {
        files, descriptors := files[name := []], descriptors + 1;
      }
    }

    /** open(O_APPEND | O_WRONLY | O_CREAT) */
    method OpenAppend(name: string) returns (ok: bool)
      modifies this`files, this`descriptors, this`script, this`failures
      ensures old(Reliable()) ==> Reliable() && ok
      ensures failures == old(failures) + if ok then 0 else 1
      ensures ok ==> descriptors == old(descriptors) + 1
      ensures ok ==> files == if name in old(files) then old(files) else old(files)[name := []]
      ensures !ok ==> files == old(files) && descriptors == old(descriptors)
    {
      ok := Simple(true);
      if ok {
        files, descriptors := if name in files then files else files[name := []], descriptors + 1;
      }
    }

    /** open(O_RDONLY) of a file, or of a directory when `isDir`. */
    method OpenRead(name: string, isDir: bool) returns (ok: bool)
      modifies this`descriptors, this`script, this`failures
      ensures descriptors == old(descriptors) + if ok then 1 else 0
      ensures failures == old(failures) + if ok then 0 else 1
      ensures ok ==> isDir || name in files
      ensures old(Reliable()) ==> Reliable() && (ok <==> isDir || name in files)
    {
      ok := Simple(isDir || name in files);
      if ok {
        descriptors := descriptors + 1;
      }
    }

    /** close(fd): the descriptor is gone even when an error is reported. */
    method Close(isOpen: bool) returns (ok: bool)
      modifies this`descriptors, this`script, this`failures
      ensures descriptors == old(descriptors) - if isOpen then 1 else 0
      ensures failures == old(failures) + if ok then 0 else 1
      ensures ok ==> isOpen
      ensures old(Reliable()) ==> Reliable() && ok == isOpen
    {
      ok := Simple(isOpen);
      if isOpen {
        descriptors := descriptors - 1;
      }
    }

    method Unlink(name: string) returns (ok: bool)
      modifies this`files, this`script, this`failures, this`failedUnlinks
      ensures old(Reliable()) ==> Reliable() && ok == (name in old(files))
      ensures failures == old(failures) + if ok then 0 else 1
      ensures failedUnlinks == old(failedUnlinks) + if ok then 0 else 1
      ensures ok ==> files == old(files) - {name}
      ensures !ok ==> files == old(files)
    {
      ok := Simple(name in files);
      if ok {
        files := files - {name};
      } else {
        failedUnlinks := failedUnlinks + 1;
      }
    }
  }
}
