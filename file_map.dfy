/**
 * map_file and unmap_file of src/file-mmap.c over a `struct file_map`.
 *
 * map_file is a chain of gates, each ending the call with ERROR when it
 * fails: open, fstat, regular file, empty file without a length, resize,
 * protection, access, mmap. `MapFileRun` states what one call leaves behind
 * (status, the three fields, the file) and `MapFileCalls` the host calls it
 * makes; `FileMap.MapFile` is the early-return code, proved to do exactly that.
 */
module FileMap {
  import opened Wrappers
  import opened FileMapMode
  import opened Posix

  /** The kernel's answer to each call map_file makes, as the call returns it. */
  datatype Outcomes = Outcomes(openResult: int, fstatResult: int, ftruncateResult: int, mmapResult: int)

  /** The gates of map_file, each named by the way it fails. */
  datatype Failure =
    | OpenFailed | StatFailed | NotRegular | EmptyWithoutLength
    | ResizeFailed | NoProtection | BadAccess | MmapFailed

  /** The position of a gate in the order map_file tests them. */
  function Rank(g: Failure): nat
  {
    match g
    case OpenFailed => 0
    case StatFailed => 1
    case NotRegular => 2
    case EmptyWithoutLength => 3
    case ResizeFailed => 4
    case NoProtection => 5
    case BadAccess => 6
    case MmapFailed => 7
  }

  /**
   * Whether gate g, looked at on its own, lets the call through, i.e. the
   * failure g names does not happen: Passes(OpenFailed, ...) holds when open succeeds.
   */
  predicate Passes(g: Failure, file: FileState, length: nat, mode: bv32, o: Outcomes)
  {
    match g
    case OpenFailed => o.openResult >= 0
    case StatFailed => o.fstatResult != SysError
    case NotRegular => Created(file).kind == Regular
    case EmptyWithoutLength => Created(file).size != 0 || length != 0
    case ResizeFailed => Created(file).size != 0 || o.ftruncateResult != SysError
    case NoProtection => ProtectionOf(mode) != NoRights
    case BadAccess => SharingOf(mode).Some?
    case MmapFailed => o.mmapResult != MapFailed
  }

  predicate AllGatesPass(file: FileState, length: nat, mode: bv32, o: Outcomes)
  {
    forall g :: Passes(g, file, length, mode, o)
  }

  /** Whether a call that stopped at `failure` (None: it did not stop) got as far as testing gate g. */
  predicate Reaches(failure: Option<Failure>, g: Failure)
  {
    failure.None? || Rank(g) <= Rank(failure.value)
  }

  /**
   * What one call of map_file leaves behind: its status, the gate that
   * stopped it (the source tells the gates apart only in the diagnostic it
   * prints), the fields of the struct (address is None when mmap was never
   * called and the field kept its old value) and the file.
   */
  datatype Run = Run(
    status: int,
    failure: Option<Failure>,
    fid: int,
    length: nat,
    address: Option<int>,
    file: FileState)

  /** map_file's effect, gate by gate. */
  function MapFileRun(file: FileState, length: nat, mode: bv32, o: Outcomes): Run
  {
    var fd := o.openResult;
    if fd < 0 then Run(Error, Some(OpenFailed), fd, length, None, file)
    else
      var st := Created(file);
      if o.fstatResult == SysError then Run(Error, Some(StatFailed), fd, length, None, st)
      else if st.kind != Regular then Run(Error, Some(NotRegular), fd, length, None, st)
      else if st.size == 0 && length == 0 then Run(Error, Some(EmptyWithoutLength), fd, length, None, st)
      else if st.size == 0 && o.ftruncateResult == SysError then Run(Error, Some(ResizeFailed), fd, length, None, st)
      else
        // the size of a non-empty file replaces the caller's length; an empty file is grown to it
        var len := if st.size == 0 then length else st.size;
        var grown := Present(st.kind, len);
        if ProtectionOf(mode) == NoRights then Run(Error, Some(NoProtection), fd, len, None, grown)
        else if SharingOf(mode).None? then Run(Error, Some(BadAccess), fd, len, None, grown)
        else if o.mmapResult == MapFailed then Run(Error, Some(MmapFailed), fd, len, Some(o.mmapResult), grown)
        else Run(Ok, None, fd, len, Some(o.mmapResult), grown)
  }

  /** The host calls one call of map_file makes, in order. */
  function MapFileCalls(file: FileState, length: nat, path: string, mode: bv32, o: Outcomes): seq<Call>
  {
    var fd := o.openResult;
    if fd < 0 then [Open(path)]
    else
      var st := Created(file);
      var stat := [Open(path)] + [Fstat(fd)];
      if o.fstatResult == SysError || st.kind != Regular || (st.size == 0 && length == 0) then
        stat + [Close(fd)]
      else
        var sized := if st.size == 0 then stat + [Ftruncate(fd, length)] else stat;
        if st.size == 0 && o.ftruncateResult == SysError then sized + [Close(fd)]
        else if ProtectionOf(mode) == NoRights || SharingOf(mode).None? then sized + [Close(fd)]
        else
          var len := if st.size == 0 then length else st.size;
          var mapped := sized + [Mmap(len, ProtectionOf(mode), SharingOf(mode).value, fd)];
          if o.mmapResult == MapFailed then mapped + [Close(fd)] else mapped
  }

  /** struct file_map: the mapped address, the mapping's length and the descriptor behind it. */
  class FileMap {
    var address: int
    var length: nat
    var fid: int

    constructor (address: int, length: nat, fid: int)
      ensures this.address == address && this.length == length && this.fid == fid
    {
      this.address := address;
      this.length := length;
      this.fid := fid;
    }

    /** map_file(map, filename, mode), the kernel answering each call as `o` says. */
    method MapFile(host: Host, filename: string, mode: bv32, o: Outcomes) returns (status: int)
      requires o.openResult < 0 || o.openResult !in host.openFds
      modifies this, host
      ensures var r := MapFileRun(old(host.file), old(length), mode, o);
        && status == r.status
        && fid == r.fid
        && length == r.length
        && address == (if r.address.Some? then r.address.value else old(address))
        && host.file == r.file
      ensures host.calls == old(host.calls) + MapFileCalls(old(host.file), old(length), filename, mode, o)
      ensures host.openFds ==
        if fid < 0 then old(host.openFds)
        else if status == Ok then old(host.openFds) + {fid}
        else old(host.openFds) - {fid}
      ensures host.regions ==
        if status == Ok then old(host.regions) + {Region(address, length, fid)} else old(host.regions)
    {
      ghost var calls0 := host.calls;
      status := Ok;

      fid := host.OpenFile(filename, o.openResult);
      // the host calls this call of map_file has made so far
      ghost var t := [Open(filename)];
      if fid < 0 {
        return Error;
      }

      var statOk, kind, size := host.StatFile(fid, o.fstatResult);
      AppendCall(calls0, t, Fstat(fid));
      t := t + [Fstat(fid)];
      if !statOk {
        host.CloseFile(fid);
        AppendCall(calls0, t, Close(fid));
        return Error;
      }

      if kind != Regular {
        host.CloseFile(fid);
        AppendCall(calls0, t, Close(fid));
        return Error;
      }

      if size == 0 {
        if length == 0 {
          host.CloseFile(fid);
          AppendCall(calls0, t, Close(fid));
          return Error;
        } else {
          var resized := host.TruncateFile(fid, length, o.ftruncateResult);
          AppendCall(calls0, t, Ftruncate(fid, length));
          t := t + [Ftruncate(fid, length)];
          if !resized {
            host.CloseFile(fid);
            AppendCall(calls0, t, Close(fid));
            return Error;
          }
        }
      } else {
        length := size;
      }

      var prot := NoRights;
      if (mode & Prot) & ProtRead != 0 {
        prot := prot.(read := true);
      }
      if (mode & Prot) & ProtWrite != 0 {
        prot := prot.(write := true);
      }
      assert prot == ProtectionOf(mode);
      if prot == NoRights {
        host.CloseFile(fid);
        AppendCall(calls0, t, Close(fid));
        return Error;
      }

      var sharing: Sharing;
      if mode & Access == AccessPrivate {
        sharing := Private;
      } else if mode & Access == AccessShared {
        sharing := Shared;
      } else {
        host.CloseFile(fid);
        AppendCall(calls0, t, Close(fid));
        return Error;
      }
      assert Some(sharing) == SharingOf(mode);

      address := host.MapRegion(length, prot, sharing, fid, o.mmapResult);
      AppendCall(calls0, t, Mmap(length, prot, sharing, fid));
      t := t + [Mmap(length, prot, sharing, fid)];
      if address == MapFailed {
        host.CloseFile(fid);
        AppendCall(calls0, t, Close(fid));
        return Error;
      }

      return status;
    }

    /** unmap_file(map), munmap answering `munmapResult`. */
    method UnmapFile(host: Host, munmapResult: int) returns (status: int)
      modifies host
      ensures status == Ok || status == Error
      ensures status == Ok <==> munmapResult != SysError
      ensures unchanged(this)
      ensures host.regions ==
        if status == Ok then Unmapped(old(host.regions), address, length) else old(host.regions)
      ensures host.calls == old(host.calls) + [Munmap(address, length)]
      ensures host.file == old(host.file) && host.openFds == old(host.openFds)
    {
      var result := host.UnmapRegion(address, length, munmapResult);
      if result == SysError {
        return Error;
      }
      return Ok;
    }
  }
}
