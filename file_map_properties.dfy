/**
 * What map_file promises, proved of `MapFileRun`: the gates are tested in
 * order and OK means every gate passed; the length rule; one close attempt
 * on every failure after a successful open and none otherwise; what a
 * successful call leaves behind; and that mode bits outside the protection
 * and access masks change nothing.
 */
module FileMapProperties {
  import opened Wrappers
  import opened FileMapMode
  import opened Posix
  import opened FileMap

  /** map_file stops at a gate that fails, every earlier gate passed, and it stops nowhere exactly when all pass. */
  lemma {:induction false} GatesInOrder(file: FileState, length: nat, mode: bv32, o: Outcomes)
    ensures var r := MapFileRun(file, length, mode, o);
      && (r.failure.None? <==> AllGatesPass(file, length, mode, o))
      && (r.failure.Some? ==>
            && !Passes(r.failure.value, file, length, mode, o)
            && forall g :: Rank(g) < Rank(r.failure.value) ==> Passes(g, file, length, mode, o))
  {
    var r := MapFileRun(file, length, mode, o);
    if r.failure.None? {
      forall g ensures Passes(g, file, length, mode, o) {
      }
    } else {
      assert !Passes(r.failure.value, file, length, mode, o);
    }
  }

  /** ERROR is returned exactly when some gate stopped the call; only the open gate stops it before a descriptor exists. */
  lemma FailureDeterminesStatus(file: FileState, length: nat, mode: bv32, o: Outcomes)
    ensures var r := MapFileRun(file, length, mode, o);
      && (r.status == Ok <==> r.failure.None?)
      && (r.status == Error <==> r.failure.Some?)
      && (r.failure == Some(OpenFailed) <==> o.openResult < 0)
      && r.fid == o.openResult
  {
  }

  /** map_file returns OK exactly when every gate passed, ERROR otherwise, and never WARN. */
  lemma OkIffAllGatesPass(file: FileState, length: nat, mode: bv32, o: Outcomes)
    ensures var r := MapFileRun(file, length, mode, o);
      && (r.status == Ok <==> AllGatesPass(file, length, mode, o))
      && (r.status == Ok || r.status == Error)
      && r.status != Warn
  {
    GatesInOrder(file, length, mode, o);
  }

  /**
   * The calls map_file makes follow the gates: open always; fstat once open
   * succeeded; ftruncate only for an empty file with a length; mmap only once
   * both mode checks passed; close last, only after a failure past open.
   */
  lemma CallsFollowGates(file: FileState, length: nat, path: string, mode: bv32, o: Outcomes)
    ensures var r := MapFileRun(file, length, mode, o);
      Reaches(r.failure, MmapFailed) ==> DecodeMode(mode).Some?
    ensures var r := MapFileRun(file, length, mode, o); var fd := o.openResult; var f := r.failure;
      MapFileCalls(file, length, path, mode, o) ==
        [Open(path)]
        + (if Reaches(f, StatFailed) then [Fstat(fd)] else [])
        + (if Reaches(f, ResizeFailed) && Created(file).size == 0 then [Ftruncate(fd, length)] else [])
        + (if Reaches(f, MmapFailed)
           then [Mmap(r.length, DecodeMode(mode).value.prot, DecodeMode(mode).value.sharing, fd)]
           else [])
        + (if f.Some? && f != Some(OpenFailed) then [Close(fd)] else [])
  {
  }

  /**
   * Every ERROR after a successful open attempts exactly one close, of the
   * descriptor open returned, as the last call; a failed open and a success
   * close nothing.
   */
  lemma CloseDiscipline(file: FileState, length: nat, path: string, mode: bv32, o: Outcomes)
    ensures var r := MapFileRun(file, length, mode, o); var calls := MapFileCalls(file, length, path, mode, o);
      Closes(calls) == (if r.status == Error && o.openResult >= 0 then [o.openResult] else [])
    ensures var r := MapFileRun(file, length, mode, o); var calls := MapFileCalls(file, length, path, mode, o);
      r.status == Error && o.openResult >= 0 ==> calls[|calls| - 1] == Close(o.openResult)
    ensures var r := MapFileRun(file, length, mode, o); var calls := MapFileCalls(file, length, path, mode, o);
      o.openResult < 0 ==> r.status == Error && calls == [Open(path)] && r.file == file
  {
    CallsFollowGates(file, length, path, mode, o);
    var r := MapFileRun(file, length, mode, o);
    var calls := MapFileCalls(file, length, path, mode, o);
    var fd := o.openResult;
    var f := r.failure;
    var mmap := if Reaches(f, MmapFailed)
      then Mmap(r.length, DecodeMode(mode).value.prot, DecodeMode(mode).value.sharing, fd)
      else Open(path);
    var stat, resize, mapped, close :=
      Reaches(f, StatFailed), Reaches(f, ResizeFailed) && Created(file).size == 0,
      Reaches(f, MmapFailed), f.Some? && f != Some(OpenFailed);
    ClosesOfGateCalls(path, fd, stat, resize, Ftruncate(fd, length), mapped, mmap, close);
    assert calls ==
      [Open(path)]
      + (if stat then [Fstat(fd)] else [])
      + (if resize then [Ftruncate(fd, length)] else [])
      + (if mapped then [mmap] else [])
      + (if close then [Close(fd)] else []);
    FailureDeterminesStatus(file, length, mode, o);
  }

  /** Only the trailing call of a trace shaped like map_file's can be a close. */
  lemma ClosesOfGateCalls(path: string, fd: int, stat: bool, resize: bool, ftruncate: Call, mapped: bool, mmap: Call, close: bool)
    requires !ftruncate.Close? && !mmap.Close?
    ensures var calls :=
      [Open(path)]
      + (if stat then [Fstat(fd)] else [])
      + (if resize then [ftruncate] else [])
      + (if mapped then [mmap] else [])
      + (if close then [Close(fd)] else []);
      && Closes(calls) == (if close then [fd] else [])
      && (close ==> calls[|calls| - 1] == Close(fd))
  {
    var a := [Open(path)];
    assert a[1..] == [];
    assert Closes(a) == [];
    ClosesMaybe(a, stat, Fstat(fd));
    var b := a + (if stat then [Fstat(fd)] else []);
    ClosesMaybe(b, resize, ftruncate);
    var c := b + (if resize then [ftruncate] else []);
    ClosesMaybe(c, mapped, mmap);
    var d := c + (if mapped then [mmap] else []);
    ClosesMaybe(d, close, Close(fd));
  }

  /** Appending a call that may or may not be made adds its descriptor to the closes only if it is a close that is made. */
  lemma ClosesMaybe(calls: seq<Call>, made: bool, c: Call)
    ensures Closes(calls + (if made then [c] else [])) == Closes(calls) + (if made && c.Close? then [c.fd] else [])
  {
    if made {
      ClosesAppend(calls, [c]);
      assert [c][1..] == [];
    } else {
      assert calls + [] == calls;
    }
  }

  /** A file that is not regular is rejected whatever the mode and length, before anything is resized. */
  lemma NonRegularFileFails(file: FileState, length: nat, path: string, mode: bv32, o: Outcomes)
    requires o.openResult >= 0 && o.fstatResult != SysError
    requires Created(file).kind != Regular
    ensures var r := MapFileRun(file, length, mode, o); var calls := MapFileCalls(file, length, path, mode, o);
      && r.status == Error
      && r.failure == Some(NotRegular)
      && r.length == length
      && r.file == Created(file)
      && calls == [Open(path), Fstat(o.openResult), Close(o.openResult)]
  {
  }

  /** A non-empty regular file: its size replaces the caller's length and it is never truncated. */
  lemma NonEmptyFileSetsLength(file: FileState, length: nat, path: string, mode: bv32, o: Outcomes)
    requires o.openResult >= 0 && o.fstatResult != SysError
    requires Created(file).kind == Regular && Created(file).size > 0
    ensures var r := MapFileRun(file, length, mode, o); var calls := MapFileCalls(file, length, path, mode, o);
      && r.length == Created(file).size
      && r.file == Created(file)
      && forall c :: c in calls ==> !c.Ftruncate?
  {
  }

  /** An empty file with no length to grow it to is rejected and left empty. */
  lemma EmptyFileWithoutLengthFails(file: FileState, length: nat, path: string, mode: bv32, o: Outcomes)
    requires o.openResult >= 0 && o.fstatResult != SysError
    requires Created(file).kind == Regular && Created(file).size == 0
    requires length == 0
    ensures var r := MapFileRun(file, length, mode, o); var calls := MapFileCalls(file, length, path, mode, o);
      && r.status == Error
      && r.failure == Some(EmptyWithoutLength)
      && r.file == Present(Regular, 0)
      && forall c :: c in calls ==> !c.Ftruncate?
  {
  }

  /**
   * An empty file with a length is grown to exactly that length, which stays
   * the mapping length; the resize happens before the mode is checked, so a
   * rejected mode still leaves the file grown. A failed resize is ERROR.
   */
  lemma EmptyFileIsGrown(file: FileState, length: nat, path: string, mode: bv32, o: Outcomes)
    requires o.openResult >= 0 && o.fstatResult != SysError
    requires Created(file).kind == Regular && Created(file).size == 0
    requires length > 0
    ensures var r := MapFileRun(file, length, mode, o); var calls := MapFileCalls(file, length, path, mode, o);
      && Ftruncate(o.openResult, length) in calls
      && r.length == length
      && (o.ftruncateResult == SysError ==>
            r.status == Error && r.failure == Some(ResizeFailed) && r.file == Present(Regular, 0))
      && (o.ftruncateResult != SysError ==> r.file == Present(Regular, length))
      && (o.ftruncateResult != SysError && DecodeMode(mode).None? ==> r.status == Error)
  {
  }

  /**
   * When every gate passes the call is OK: the address is what mmap returned, the descriptor is still open,
   * the length is the file's size, and the last call mapped that length of it
   * with the decoded protection and access.
   */
  lemma SuccessfulMapping(file: FileState, length: nat, path: string, mode: bv32, o: Outcomes)
    requires AllGatesPass(file, length, mode, o)
    ensures MapFileRun(file, length, mode, o).status == Ok
    ensures DecodeMode(mode).Some?
    ensures var r := MapFileRun(file, length, mode, o); var calls := MapFileCalls(file, length, path, mode, o); var d := DecodeMode(mode).value;
      && r.address == Some(o.mmapResult) && o.mmapResult != MapFailed
      && r.fid == o.openResult && r.fid >= 0
      && r.length > 0
      && r.length == (if Created(file).size == 0 then length else Created(file).size)
      && r.file == Present(Regular, r.length)
      && calls[|calls| - 1] == Mmap(r.length, d.prot, d.sharing, r.fid)
      && Close(r.fid) !in calls
  {
    OkIffAllGatesPass(file, length, mode, o);
  }

  /** Bits outside the protection and access masks change nothing map_file does. */
  lemma OnlyKnownModeBitsMatter(file: FileState, length: nat, path: string, mode: bv32, other: bv32, o: Outcomes)
    requires mode & Known == other & Known
    ensures MapFileRun(file, length, mode, o) == MapFileRun(file, length, other, o)
    ensures MapFileCalls(file, length, path, mode, o) == MapFileCalls(file, length, path, other, o)
  {
    OnlyKnownBitsMatter(mode, other);
  }
}
