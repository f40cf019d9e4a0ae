# file-mmap, modelled in Dafny

A model of the file-mapping helper of the file-mmap library: `map_file` opens
(creating if needed) a file, checks that it is a regular file, settles the
mapping length (a non-empty file's size wins; an empty file is grown to the
caller's length), decodes the caller's mode bitmask into mmap protection and
access, and maps the file; `unmap_file` releases the mapping. Every failure
returns `FILE_MAP_ERROR`, and every failure after a successful `open` first
attempts to close the descriptor.

Files:

- `wrappers.dfy`: `Option`.
- `file_map_mode.dfy` (module `FileMapMode`): the header's masks, six presets
  and status codes, and the mode decoding done by `map_file`
  (`ProtectionOf`, `SharingOf`, `DecodeMode`) with its inverse `Encode`.
- `posix.dfy` (module `Posix`): the host as `map_file` sees it. The class
  `Host` holds the file at the requested path (absent, or present with a kind
  and a size), the open descriptors, the mapped regions and a log of every
  call. Its methods `OpenFile`, `StatFile`, `TruncateFile`, `MapRegion`,
  `UnmapRegion` and `CloseFile` take the kernel's answer as a parameter.
- `file_map.dfy` (module `FileMap`): `struct file_map` as the class
  `FileMap` (fields `address`, `length`, `fid`). `MapFile` is the
  early-return code of `map_file`, and `UnmapFile` is `unmap_file`.
  `MapFileRun` is the gate-by-gate specification of what one `map_file` call
  leaves behind, and `MapFileCalls` lists the host calls it makes, in order.
  `MapFile` is proved to do exactly that: the status, the three fields, the
  file, the descriptors, the regions and the call log. `Passes` and `Rank`
  describe each gate on its own, and give the order in which the gates are tested.
- `file_map_properties.dfy` (module `FileMapProperties`): what `map_file`
  promises, proved of `MapFileRun` and `MapFileCalls`.

Inputs the model takes as parameters instead of performing I/O: the result of
`open` (a descriptor, negative on failure), of `fstat`, `ftruncate` and
`munmap` (`-1` on failure), and of `mmap` (`MAP_FAILED` on failure, else the
address). The file's kind and size come from the `Host` state that `fstat`
reports. The mode is the 32-bit pattern of the C `int`.

## Model

| member | source | states |
|---|---|---|
| FileMapMode.MasksPartition | inc/file-mmap.h:11-16 | `FILE_MAP_PROT` is read OR write and `FILE_MAP_ACCESS` is shared OR private; the single bits within each group are disjoint, and the two groups do not overlap |
| FileMapMode.StatusCodesDistinct | inc/file-mmap.h:35-37 | OK (0), WARN (-1) and ERROR (-2) are pairwise distinct |
| FileMapMode.ProtectionDecoding | src/file-mmap.c:103-106 | the read bit gives read rights, the write bit write rights; no rights exactly when neither protection bit is set |
| FileMapMode.SharingDecoding | src/file-mmap.c:121-142 | access bits 0x20 give private, 0x10 give shared; 0x00 and 0x30 are rejected, and nothing else is |
| FileMapMode.OnlyKnownBitsMatter | src/file-mmap.c:104-126 | two modes that agree on the bits 0x33 decode identically (protection, access and acceptance) |
| FileMapMode.Encode | inc/file-mmap.h:19-32 | composing a protection set with rights and an access kind, as the presets do, gives a mode with no bits outside 0x33 that `map_file` decodes back to exactly that pair |
| FileMapMode.DecodeThenEncode | src/file-mmap.c:103-142 | an accepted mode has some rights, and re-encoding what it decodes to gives back its bits under 0x33 (the other half of the round trip) |
| FileMapMode.PresetsDecodeToTheirNames | inc/file-mmap.h:19-32 | each of the six presets passes both mode checks and decodes to the rights and access its name says |
| FileMapMode.AcceptedModesArePresets | src/file-mmap.c:103-142 | a mode passes both mode checks if and only if its bits under 0x33 are one of the six presets |
| Posix.Created | src/file-mmap.c:22-26 | a successful open with `O_CREAT` leaves the file present: an existing file unchanged, a missing one created |
| Posix.Unmapped | src/file-mmap.c:178-181 | after a successful munmap of the address and length that mmap produced, exactly the regions with that address and length are gone, and every region with another address or length is kept |
| Posix.UnmapUndoesMap | src/file-mmap.c:145-181 | unmapping the region one successful mmap added restores the process's regions to what they were before the mapping |
| Posix.Host.OpenFile | src/file-mmap.c:22-31 | given a kernel that hands out only descriptors not already open, a non-negative result is a new open descriptor, and the file exists afterwards; a negative result changes nothing but the call log |
| Posix.Host.StatFile | src/file-mmap.c:34-35 | fstat fails exactly on -1; otherwise it reports the file's kind and size; it changes nothing but the call log |
| Posix.Host.TruncateFile | src/file-mmap.c:82 | unless ftruncate returns -1, the file now holds exactly the requested length; its kind is kept |
| Posix.Host.MapRegion | src/file-mmap.c:145-153 | the address is what mmap returned; unless that is `MAP_FAILED`, a region of that length backed by the descriptor is added |
| Posix.Host.UnmapRegion | src/file-mmap.c:178-182 | unless munmap returns -1, the region at that address and length is removed; the file and the descriptors are untouched |
| Posix.Host.CloseFile | src/file-mmap.c:38 | a close attempt is logged, and the descriptor is no longer open |
| FileMap.FileMap.constructor | inc/file-mmap.h:49-54 | a `struct file_map` holding the caller's address, length and descriptor |
| FileMap.FileMap.MapFile | src/file-mmap.c:12-169 | given a kernel whose open returns a descriptor not already open, the early-return code returns the status of `MapFileRun`. It leaves `fid`, `length` and the file as that run says. `address` is the mmap result if mmap was called, else unchanged. The calls are appended in order. The descriptor stays open only on OK, and a region is added only on OK |
| FileMap.FileMap.UnmapFile | src/file-mmap.c:170-190 | OK if and only if munmap did not return -1, else ERROR; no field of the struct changes, and no descriptor is closed; only the munmap call is made |
| FileMapProperties.GatesInOrder | src/file-mmap.c:21-165 | map_file stops at a gate that fails, and every gate before it in the order (open, fstat, regular file, empty without length, resize, protection, access, mmap) passed; it stops nowhere if and only if every gate passes |
| FileMapProperties.FailureDeterminesStatus | src/file-mmap.c:19-31 | ERROR if and only if some gate stopped the call; only a failed open stops it before a descriptor exists; `fid` is always what open returned |
| FileMapProperties.OkIffAllGatesPass | src/file-mmap.c:19-168 | map_file returns OK if and only if every gate passes, and otherwise ERROR; it never returns WARN |
| FileMapProperties.CallsFollowGates | src/file-mmap.c:21-165 | the calls made are open, then fstat if open succeeded, then ftruncate only for an empty file with a length, then mmap only if both mode checks passed (with the decoded protection and access), then close only after a failure past open |
| FileMapProperties.CloseDiscipline | src/file-mmap.c:27-165 | every ERROR after a successful open closes exactly once, closes the descriptor open returned, and does so as the last call; a failed open makes no call but open; OK closes nothing |
| FileMapProperties.NonRegularFileFails | src/file-mmap.c:49-62 | a file that is not regular is rejected whatever the mode and length; it is closed, and it is neither resized nor mapped |
| FileMapProperties.NonEmptyFileSetsLength | src/file-mmap.c:97-100 | for a non-empty regular file, the file's size replaces the caller's length, and no ftruncate is made |
| FileMapProperties.EmptyFileWithoutLengthFails | src/file-mmap.c:65-79 | an empty file with length 0 is ERROR; no ftruncate is made, and the file stays empty |
| FileMapProperties.EmptyFileIsGrown | src/file-mmap.c:80-96 | an empty file with a length is truncated to exactly that length, which stays the mapping length; a failed ftruncate is ERROR; a successful one leaves the file grown even when the mode is then rejected |
| FileMapProperties.SuccessfulMapping | src/file-mmap.c:144-168 | when every gate passes the call is OK, and then: the address is the mmap result (not `MAP_FAILED`), the descriptor is the one open returned and is never closed, the length is positive and equals the file's size, and the last call mapped that length with the decoded protection and access |
| FileMapProperties.OnlyKnownModeBitsMatter | src/file-mmap.c:102-142 | two modes that agree on the bits 0x33 give identical map_file runs and identical calls, so mmap gets the same protection and access |

## Left out

- The `open` flags and the 0777 permission bits, fstat internals, and how the kernel picks a descriptor or an address: each call's result is a parameter.
- The close result: it selects only the `perror` text. A close attempt is modelled as releasing the descriptor.
- `perror` and every diagnostic written to stderr.
- The contents of the mapped region, the zero bytes that ftruncate writes, and the difference between shared and private write-back. Only sizes, regions and the decoded access kind are modelled.
- The file path only labels the `open` call. The host holds the one file that this path names.
- Concurrent use of one `struct file_map`.
- Integer widths of `size_t` and `off_t`, and the `st_size` to `length` conversion. Lengths and sizes are unbounded naturals; the descriptor and the address are unbounded integers.
- The missing parentheses in the preset macros. Each preset is modelled as the OR of its components, which is what the macro gives when it is used alone.
- The C++ namespace, the `extern "C"` wrappers and the includes.
- Posix.Unmapped: munmap is modelled as removing only the regions whose address and length equal its arguments; partial and overlapping unmaps, which POSIX allows to remove or split regions, are not modelled, since unmap_file only passes back the pair that mmap produced.
- The state after a failed `munmap` is undefined at the OS level. The model keeps the regions unchanged, and `UnmapFile` reports ERROR.
- The result of munmap (and of fstat and ftruncate) is compared with -1, as the code does, not with 0. The two readings agree for a call that returns only 0 or -1.
