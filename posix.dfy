/**
 * The part of the operating system that map_file and unmap_file talk to:
 * the file at the requested path, the process's open descriptors, its mapped
 * regions, and the calls made. Whether each call succeeds, and the descriptor
 * or address it hands back, is the kernel's choice and comes in as a parameter.
 */
module Posix {
  import opened FileMapMode

  /**
   * What the S_IFMT bits of st_mode, as fstat reports them, say the file is.
   * open follows a symbolic link, so fstat on its descriptor never reports one.
   */
  datatype FileKind = Regular | Directory | CharDevice | BlockDevice | Fifo | Socket

  datatype FileState = Absent | Present(kind: FileKind, size: nat)

  /** A mapped region: its address, its length and the descriptor behind it. */
  datatype Region = Region(address: int, length: nat, fd: int)

  /** One call into the host, with the arguments it was given. */
  datatype Call =
    | Open(path: string)
    | Fstat(fd: int)
    | Ftruncate(fd: int, length: nat)
    | Mmap(length: nat, prot: Protection, sharing: Sharing, fd: int)
    | Munmap(address: int, length: nat)
    | Close(fd: int)

  /** The -1 that fstat, ftruncate and munmap return on failure. */
  const SysError: int := -1

  /** MAP_FAILED, i.e. (void*)-1. */
  const MapFailed: int := -1

  /** The file after a successful open with O_CREAT: created empty and regular when it was absent. */
  function Created(file: FileState): (f: FileState)
    ensures f.Present?
    ensures file.Present? ==> f == file
  {
    if file.Absent? then Present(Regular, 0) else file
  }

  /**
   * The regions left after a successful munmap(address, length), for the
   * pair that mmap produced: the regions with exactly that address and length
   * are removed. Partial and overlapping unmaps are not modelled.
   */
  function Unmapped(regions: set<Region>, address: int, length: nat): (rest: set<Region>)
    ensures rest <= regions
    ensures forall r :: r in regions && !(r.address == address && r.length == length) ==> r in rest
    ensures forall r :: r in rest ==> !(r.address == address && r.length == length)
  {
    set r | r in regions && !(r.address == address && r.length == length)
  }

  /** The descriptors passed to close, in call order. */
  function Closes(calls: seq<Call>): seq<int>
  {
    if calls == [] then []
    else (if calls[0].Close? then [calls[0].fd] else []) + Closes(calls[1..])
  }

  /** The close attempts of two runs of calls are those of each, in order. */
  lemma {:induction false} ClosesAppend(a: seq<Call>, b: seq<Call>)
    ensures Closes(a + b) == Closes(a) + Closes(b)
  {
    if a == [] {
      assert a + b == b;
    } else {
      var head := if a[0].Close? then [a[0].fd] else [];
      calc {
        Closes(a + b);
      == { assert (a + b)[0] == a[0]; assert (a + b)[1..] == a[1..] + b; }
        head + Closes(a[1..] + b);
      == { ClosesAppend(a[1..], b); }
        head + (Closes(a[1..]) + Closes(b));
      == 
        (head + Closes(a[1..])) + Closes(b);
      }
    }
  }

  /** A call appended to the log extends the calls made since any earlier point by that call. */
  lemma AppendCall(log: seq<Call>, since: seq<Call>, c: Call)
    ensures (log + since) + [c] == log + (since + [c])
  {
  }

  /** Unmapping what one successful mmap added leaves the regions as they were before it. */
  lemma UnmapUndoesMap(regions: set<Region>, address: int, length: nat, fd: int)
    requires forall r :: r in regions ==> !(r.address == address && r.length == length)
    ensures Unmapped(regions + {Region(address, length, fd)}, address, length) == regions
  {
  }

  class Host {
    var file: FileState
    var openFds: set<int>
    var regions: set<Region>
    var calls: seq<Call>

    constructor (file: FileState, openFds: set<int>, regions: set<Region>)
      ensures this.file == file && this.openFds == openFds && this.regions == regions
      ensures calls == []
    {
      this.file := file;
      this.openFds := openFds;
      this.regions := regions;
      calls := [];
    }

    /**
     * open(path, O_RDWR | O_CREAT, 0777); a negative result is a failure,
     * and the kernel hands out only descriptors that are not already open.
     */
    method OpenFile(path: string, result: int) returns (fd: int)
      requires result < 0 || result !in openFds
      modifies this
      ensures fd == result
      ensures fd >= 0 ==> fd !in old(openFds)
      ensures calls == old(calls) + [Open(path)]
      ensures file == (if result < 0 then old(file) else Created(old(file)))
      ensures openFds == (if result < 0 then old(openFds) else old(openFds) + {result})
      ensures regions == old(regions)
    {
      fd := result;
      calls := calls + [Open(path)];
      if fd >= 0 {
        file := Created(file);
        openFds := openFds + {fd};
      }
    }

    /** fstat(fd, &sb); -1 is a failure, otherwise the file's kind and size are reported. */
    method StatFile(fd: int, result: int) returns (ok: bool, kind: FileKind, size: nat)
      requires file.Present?
      modifies this
      ensures file == old(file) && openFds == old(openFds) && regions == old(regions)
      ensures ok == (result != SysError)
      ensures kind == file.kind && size == file.size
      ensures calls == old(calls) + [Fstat(fd)]
    {
      ok := result != SysError;
      kind, size := file.kind, file.size;
      calls := calls + [Fstat(fd)];
    }

    /** ftruncate(fd, length); unless it returns -1 the file now holds exactly length bytes. */
    method TruncateFile(fd: int, length: nat, result: int) returns (ok: bool)
      requires file.Present?
      modifies this
      ensures ok == (result != SysError)
      ensures file == (if ok then Present(old(file).kind, length) else old(file))
      ensures calls == old(calls) + [Ftruncate(fd, length)]
      ensures openFds == old(openFds) && regions == old(regions)
    {
      ok := result != SysError;
      if ok {
        file := Present(file.kind, length);
      }
      calls := calls + [Ftruncate(fd, length)];
    }

    /** mmap(NULL, length, prot, sharing, fd, 0); MAP_FAILED is a failure, anything else the new region. */
    method MapRegion(length: nat, prot: Protection, sharing: Sharing, fd: int, result: int) returns (address: int)
      modifies this
      ensures address == result
      ensures regions == (if result == MapFailed then old(regions) else old(regions) + {Region(result, length, fd)})
      ensures calls == old(calls) + [Mmap(length, prot, sharing, fd)]
      ensures file == old(file) && openFds == old(openFds)
    {
      address := result;
      if address != MapFailed {
        regions := regions + {Region(address, length, fd)};
      }
      calls := calls + [Mmap(length, prot, sharing, fd)];
    }

    /** munmap(address, length); unless it returns -1 the range is no longer mapped. */
    method UnmapRegion(address: int, length: nat, result: int) returns (status: int)
      modifies this
      ensures status == result
      ensures regions == (if result == SysError then old(regions) else Unmapped(old(regions), address, length))
      ensures calls == old(calls) + [Munmap(address, length)]
      ensures file == old(file) && openFds == old(openFds)
    {
      status := result;
      if status != SysError {
        regions := Unmapped(regions, address, length);
      }
      calls := calls + [Munmap(address, length)];
    }

    /** close(fd): the descriptor is released whatever close reports. */
    method CloseFile(fd: int)
      modifies this
      ensures openFds == old(openFds) - {fd}
      ensures calls == old(calls) + [Close(fd)]
      ensures file == old(file) && regions == old(regions)
    {
      openFds := openFds - {fd};
      calls := calls + [Close(fd)];
    }
  }
}
