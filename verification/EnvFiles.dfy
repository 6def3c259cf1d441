/**
  WriteStringToFile and ReadFileToString of bench/util/env.cc over the POSIX files: the
  write/read round trip and the life of every descriptor.
*/
module EnvFiles {
  import opened Kernel
  import opened PosixFile

  /** kBufferSize of ReadFileToString */
  const READ_SIZE: nat := 8192

  method NewWritableFile(machine: Machine, name: string) returns (ok: bool, file: PosixWritableFile?)
    modifies machine`files, machine`descriptors, machine`script, machine`failures
    ensures machine.failures == old(machine.failures) + if ok then 0 else 1
    ensures !ok ==> file == null && machine.files == old(machine.files) && machine.descriptors == old(machine.descriptors)
    ensures ok ==> file != null && fresh(file) && fresh(file.buf) && file.machine == machine && file.name == name
    ensures ok ==> file.Valid() && file.isOpen && file.Stream() == []
    ensures ok ==> machine.files == old(machine.files)[name := []] && machine.descriptors == old(machine.descriptors) + 1
    ensures old(machine.Reliable()) ==> machine.Reliable() && ok
  {
    ok := machine.OpenTruncate(name);
    if ok {
      file := new PosixWritableFile(machine, name);
    } else {
      file := null;
    }
  }

  method NewAppendableFile(machine: Machine, name: string) returns (ok: bool, file: PosixWritableFile?)
    modifies machine`files, machine`descriptors, machine`script, machine`failures
    ensures machine.failures == old(machine.failures) + if ok then 0 else 1
    ensures !ok ==> file == null && machine.files == old(machine.files) && machine.descriptors == old(machine.descriptors)
    ensures ok ==> file != null && fresh(file) && fresh(file.buf) && file.machine == machine && file.name == name
    ensures ok ==> file.Valid() && file.isOpen && machine.descriptors == old(machine.descriptors) + 1
    ensures ok ==> file.Stream() == if name in old(machine.files) then old(machine.files)[name] else []
    ensures machine.files - {name} == old(machine.files) - {name}
    ensures old(machine.Reliable()) ==> machine.Reliable() && ok
  {
    ok := machine.OpenAppend(name);
    if ok {
      file := new PosixWritableFile(machine, name);
    } else {
      file := null;
    }
  }

  /** Write, sync if asked, close; after an error close all the same and delete the file. */
  method DoWriteStringToFile(machine: Machine, data: Bytes, name: string, shouldSync: bool) returns (ok: bool)
    modifies machine
    ensures ok ==> machine.files == old(machine.files)[name := data]
    // Whatever happens, no other file changes and the descriptor is closed exactly once.
    ensures machine.files - {name} == old(machine.files) - {name}
    ensures machine.descriptors == old(machine.descriptors)
    // After an error the file is gone, or unlink failed too and it holds a prefix, or it
    // could not be opened and is as it was.
    ensures !ok && name in machine.files ==>
              || (machine.files == old(machine.files) && machine.failures == old(machine.failures) + 1)
              || (machine.files[name] <= data && machine.failedUnlinks == old(machine.failedUnlinks) + 1)
    ensures !ok ==> machine.failures > old(machine.failures)
    ensures ok && !(shouldSync && IsManifest(name)) ==> machine.failures == old(machine.failures)
    ensures ok && shouldSync ==> name in machine.durable && machine.durable[name] == data
    ensures old(machine.Reliable()) ==> machine.Reliable() && ok
  {
    var file: PosixWritableFile?;
    ok, file := NewWritableFile(machine, name);
    if !ok {
      return;
    }
    ok := AppendAndClose(file, data, shouldSync);
    if !ok {
      var ignored := machine.Unlink(name);
    }
  }

  /** From the open file to its destruction. */
  method AppendAndClose(file: PosixWritableFile, data: Bytes, shouldSync: bool) returns (ok: bool)
    requires file.Valid() && file.isOpen && file.Stream() == []
    modifies file, file.buf
    modifies file.machine`files, file.machine`descriptors, file.machine`script, file.machine`failures, file.machine`durable, file.machine`dirSyncs
    ensures file.Valid() && !file.isOpen && file.OnlyGrew()
    ensures file.machine.descriptors == old(file.machine.descriptors) - 1
    ensures file.File() <= data
    ensures ok ==> file.File() == data
    ensures ok ==> SyncedAsAsked(file, shouldSync)
    ensures !ok ==> file.machine.failures > old(file.machine.failures)
    ensures ok && !(shouldSync && IsManifest(file.name)) ==> file.machine.failures == old(file.machine.failures)
    ensures old(file.machine.Reliable()) ==> file.machine.Reliable() && ok
  {
    assert [] + data == data;
    ok := file.Append(data);
    if !ok {
      file.Destroy();
      return;
    }
    ok := Finish(file, shouldSync);
  }

  /** From the accepted data to the destruction of the file. */
  method Finish(file: PosixWritableFile, shouldSync: bool) returns (ok: bool)
    requires file.Valid() && file.isOpen
    modifies file`pos, file`isOpen
    modifies file.machine`files, file.machine`descriptors, file.machine`script, file.machine`failures, file.machine`durable, file.machine`dirSyncs
    ensures file.Valid() && !file.isOpen && file.OnlyGrew()
    ensures file.machine.descriptors == old(file.machine.descriptors) - 1
    ensures file.File() <= old(file.Stream())
    ensures ok ==> file.File() == old(file.Stream()) && SyncedAsAsked(file, shouldSync)
    ensures !ok ==> file.machine.failures > old(file.machine.failures)
    ensures ok && !(shouldSync && IsManifest(file.name)) ==> file.machine.failures == old(file.machine.failures)
    ensures old(file.machine.Reliable()) ==> file.machine.Reliable() && ok
  {
    ok := SyncAndClose(file, shouldSync);
    file.Destroy();
  }

  ghost predicate SyncedAsAsked(file: PosixWritableFile, shouldSync: bool)
    requires file.Valid()
    reads file, file.machine, file.buf
  {
    shouldSync ==> file.name in file.machine.durable && file.machine.durable[file.name] == file.File()
  }

  method SyncAndClose(file: PosixWritableFile, shouldSync: bool) returns (ok: bool)
    requires file.Valid() && file.isOpen
    modifies file`pos, file`isOpen
    modifies file.machine`files, file.machine`descriptors, file.machine`script, file.machine`failures, file.machine`durable, file.machine`dirSyncs
    ensures file.Valid() && file.OnlyGrew()
    ensures file.machine.descriptors == old(file.machine.descriptors) - if file.isOpen then 0 else 1
    ensures ok ==> !file.isOpen && file.File() == old(file.Stream())
    ensures !ok ==> file.Stream() <= old(file.Stream())
    ensures ok ==> SyncedAsAsked(file, shouldSync)
    ensures !ok ==> file.machine.failures > old(file.machine.failures)
    ensures ok && !(shouldSync && IsManifest(file.name)) ==> file.machine.failures == old(file.machine.failures)
    ensures old(file.machine.Reliable()) ==> file.machine.Reliable() && ok
  {
    ok := true;
    if shouldSync {
      ok := file.Sync();
    }
    if ok {
      ok := file.Close();
    }
  }

  /** A file opened for reading, at an offset. */
  class PosixSequentialFile {
    const machine: Machine
    const name: string
    var offset: nat

    ghost predicate Valid()
      reads this, machine
    {
      name in machine.files && offset <= |machine.files[name]|
    }

    constructor (machine: Machine, name: string)
      requires name in machine.files
      ensures Valid() && offset == 0 && this.machine == machine && this.name == name
    {
      this.machine := machine;
      this.name := name;
      this.offset := 0;
    }

    /** Retries when interrupted; an empty fragment means the end of the file. */
    method Read(n: nat) returns (ok: bool, fragment: Bytes)
      requires Valid()
      modifies this`offset, machine`script, machine`failures
      ensures Valid()
      ensures machine.failures == old(machine.failures) + if ok then 0 else 1
      ensures ok ==> offset == old(offset) + |fragment| && |fragment| <= n
      ensures ok ==> fragment == machine.files[name][old(offset)..offset]
      ensures ok && n > 0 ==> (fragment == [] <==> old(offset) == |machine.files[name]|)
      ensures !ok ==> offset == old(offset) && fragment == []
      ensures old(machine.Reliable()) ==> machine.Reliable() && ok
    {
      while true
        invariant Valid() && offset == old(offset) && machine.failures == old(machine.failures)
        invariant old(machine.Reliable()) ==> machine.Reliable()
        decreases |machine.script|
      {
        var r := machine.Read(name, offset, n);
        match r {
          case Eintr =>
          case Error => return false, [];
          case Count(k) =>
            fragment := machine.files[name][offset..offset + k];
            offset := offset + k;
            return true, fragment;
        }
      }
    }
  }

  /** On success the whole file; otherwise the part read before the error. */
  method ReadFileToString(machine: Machine, name: string) returns (ok: bool, data: Bytes)
    modifies machine`descriptors, machine`script, machine`failures
    ensures machine.descriptors == old(machine.descriptors)
    ensures machine.failures == old(machine.failures) ==> ok
    ensures ok ==> machine.failures <= old(machine.failures) + 1   // the close is not checked
    ensures ok ==> name in machine.files && data == machine.files[name]
    ensures !ok && name in machine.files ==> data <= machine.files[name]
    ensures !ok && name !in machine.files ==> data == []
    ensures old(machine.Reliable()) ==> (ok <==> name in machine.files)
  {
    data := [];
    ok := machine.OpenRead(name, false);
    if !ok {
      return;
    }
    var file := new PosixSequentialFile(machine, name);
    while true
      invariant file.Valid() && file.machine == machine && file.name == name && fresh(file)
      invariant data == machine.files[name][..file.offset]
      invariant machine.descriptors == old(machine.descriptors) + 1
      invariant machine.failures == old(machine.failures)
      invariant old(machine.Reliable()) ==> machine.Reliable()
      decreases |machine.files[name]| - file.offset
    {
      var fragment;
      ok, fragment := file.Read(READ_SIZE);
      if !ok {
        break;
      }
      data := data + fragment;
      if fragment == [] {
        break;
      }
    }
    var ignored := machine.Close(true);   // ~PosixSequentialFile
  }

  /** If both report success, the string read is the string written: for every length and
      every split into short writes and reads. */
  method WriteThenRead(machine: Machine, data: Bytes, name: string, shouldSync: bool)
    returns (written: bool, read: bool, back: Bytes)
    modifies machine
    ensures written && read ==> back == data
    ensures written && !read ==> back <= data
    ensures old(machine.Reliable()) ==> written && read
    ensures machine.descriptors == old(machine.descriptors)
  {
    written := DoWriteStringToFile(machine, data, name, shouldSync);
    read, back := ReadFileToString(machine, name);
  }
}
