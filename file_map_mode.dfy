/**
 * The mode bitmask, presets and status codes of the file-mmap header
 * (inc/file-mmap.h), and how map_file decodes a mode into a protection
 * set and an access kind.
 *
 * The caller's mode is a C `int`; it is modelled as its 32-bit pattern.
 */
module FileMapMode {
  import opened Wrappers

  // Protection bits
  const ProtRead: bv32 := 0x01
  const ProtWrite: bv32 := 0x02
  const Prot: bv32 := 0x03
  // Access bits
  const AccessShared: bv32 := 0x10
  const AccessPrivate: bv32 := 0x20
  const Access: bv32 := 0x30

  /** Every bit that map_file looks at; all others are masked off. */
  const Known: bv32 := Prot | Access

  // Presets, each the OR of its components
  const RShared: bv32 := ProtRead | AccessShared
  const WShared: bv32 := ProtWrite | AccessShared
  const RWShared: bv32 := ProtRead | ProtWrite | AccessShared
  const RPrivate: bv32 := ProtRead | AccessPrivate
  const WPrivate: bv32 := ProtWrite | AccessPrivate
  const RWPrivate: bv32 := ProtRead | ProtWrite | AccessPrivate

  // Status codes
  const Ok: int := 0
  const Warn: int := -1
  const Error: int := -2

  /** The rights handed to mmap (PROT_READ, PROT_WRITE). */
  datatype Protection = Protection(read: bool, write: bool)

  const NoRights := Protection(false, false)

  /** The visibility handed to mmap (MAP_SHARED, MAP_PRIVATE). */
  datatype Sharing = Shared | Private

  /** A mode that passed both checks of map_file. */
  datatype Decoded = Decoded(prot: Protection, sharing: Sharing)

  /** The protection map_file accumulates from the protection bits. */
  function ProtectionOf(mode: bv32): Protection
  {
    Protection((mode & Prot) & ProtRead != 0, (mode & Prot) & ProtWrite != 0)
  }

  /** The access map_file selects: private is tested first, then shared; anything else is rejected. */
  function SharingOf(mode: bv32): Option<Sharing>
  {
    if mode & Access == AccessPrivate then Some(Private)
    else if mode & Access == AccessShared then Some(Shared)
    else None
  }

  /** Both mode checks of map_file together: some protection and exactly one access bit. */
  function DecodeMode(mode: bv32): Option<Decoded>
  {
    var prot := ProtectionOf(mode);
    if prot == NoRights then None
    else match SharingOf(mode)
      case None => None
      case Some(sharing) => Some(Decoded(prot, sharing))
  }

  /** The mode a caller composes for a decoded pair, as the presets do. */
  function Encode(d: Decoded): (mode: bv32)
    requires d.prot != NoRights
    ensures mode & !Known == 0
    ensures DecodeMode(mode) == Some(d)
  {
    (if d.prot.read then ProtRead else 0)
    | (if d.prot.write then ProtWrite else 0)
    | (if d.sharing == Shared then AccessShared else AccessPrivate)
  }

  /** The combined masks are the ORs of their bits, and the two groups do not overlap. */
  lemma MasksPartition()
    ensures Prot == ProtRead | ProtWrite && ProtRead & ProtWrite == 0
    ensures Access == AccessShared | AccessPrivate && AccessShared & AccessPrivate == 0
    ensures Prot & Access == 0
  {
  }

  /** OK, WARN and ERROR are pairwise distinct. */
  lemma StatusCodesDistinct()
    ensures Ok != Warn && Ok != Error && Warn != Error
  {
  }

  /** The read bit alone gives read rights, the write bit alone write rights. */
  lemma ProtectionDecoding(mode: bv32)
    ensures ProtectionOf(mode).read <==> mode & ProtRead == ProtRead
    ensures ProtectionOf(mode).write <==> mode & ProtWrite == ProtWrite
    ensures ProtectionOf(mode) == NoRights <==> mode & Prot == 0
  {
  }

  /** 0x20 selects private, 0x10 shared; neither bit and both bits are rejected. */
  lemma SharingDecoding(mode: bv32)
    ensures SharingOf(mode) == Some(Private) <==> mode & Access == AccessPrivate
    ensures SharingOf(mode) == Some(Shared) <==> mode & Access == AccessShared
    ensures SharingOf(mode) == None <==> mode & Access == 0 || mode & Access == Access
  {
  }

  /** Bits outside Known never change the decoding. */
  lemma OnlyKnownBitsMatter(mode: bv32, other: bv32)
    requires mode & Known == other & Known
    ensures ProtectionOf(mode) == ProtectionOf(other)
    ensures SharingOf(mode) == SharingOf(other)
    ensures DecodeMode(mode) == DecodeMode(other)
  {
  }

  /** A mode that decodes is, on its known bits, exactly the encoding of what it decodes to. */
  lemma DecodeThenEncode(mode: bv32)
    requires DecodeMode(mode).Some?
    ensures DecodeMode(mode).value.prot != NoRights
    ensures Encode(DecodeMode(mode).value) == mode & Known
  {
  }

  /** Each preset passes both checks and decodes to what its name says. */
  lemma PresetsDecodeToTheirNames()
    ensures DecodeMode(RShared) == Some(Decoded(Protection(true, false), Shared))
    ensures DecodeMode(WShared) == Some(Decoded(Protection(false, true), Shared))
    ensures DecodeMode(RWShared) == Some(Decoded(Protection(true, true), Shared))
    ensures DecodeMode(RPrivate) == Some(Decoded(Protection(true, false), Private))
    ensures DecodeMode(WPrivate) == Some(Decoded(Protection(false, true), Private))
    ensures DecodeMode(RWPrivate) == Some(Decoded(Protection(true, true), Private))
  {
  }

  /** The modes map_file accepts are, on their known bits, exactly the six presets. */
  lemma AcceptedModesArePresets(mode: bv32)
    ensures DecodeMode(mode).Some? <==>
      var m := mode & Known;
      m == RShared || m == WShared || m == RWShared || m == RPrivate || m == WPrivate || m == RWPrivate
  {
  }
}
