/** The archive entry (tar_header_t) and the part of fillup_entry that turns
    what lstat reports about a path into the entry's type, mode bits, owner,
    size and time. */
module Entry {
  import opened Common

  /** The file type as the S_ISREG .. S_ISLNK macros tell it from st_mode. */
  datatype FileKind =
    | RegularFile
    | DirectoryFile
    | CharDevice
    | BlockDevice
    | FifoFile
    | SymbolicLink
    | OtherFile     // a socket or any other type none of the macros names

  /** The fields of struct stat that the core reads. st_mode is kept as the
      bits the permission macros test; st_mtime is taken as a count of
      seconds since the epoch. */
  datatype Stat = Stat(kind: FileKind, mode: bv32, nlink: nat, uid: nat, gid: nat, size: nat, mtime: nat)

  /** typeflag_t, as far as the writer uses it. */
  datatype TypeFlag = Regular | HardLink | SymLink | CharDev | BlockDev | Directory | Fifo | NotSup

  /** tar_header_t without the list link: one entry of the archive. */
  datatype TarEntry = TarEntry(
    name: Path,
    typeflag: TypeFlag,
    mode: nat,
    nlink: nat,
    uid: nat,
    gid: nat,
    size: nat,
    mtime: nat)

  /** The if/else-if chain over the S_IS* macros; lstat does not follow
      symbolic links, so a link is classified as a link. */
  function KindFlag(k: FileKind): (t: TypeFlag)
    ensures t != HardLink
    ensures t == NotSup <==> k == OtherFile
  {
    match k
    case RegularFile => Regular
    case DirectoryFile => Directory
    case CharDevice => CharDev
    case BlockDevice => BlockDev
    case FifoFile => Fifo
    case SymbolicLink => SymLink
    case OtherFile => NotSup
  }

  /** The file type a reader infers back from a type flag. */
  function FlagKind(t: TypeFlag): (k: Option<FileKind>)
    ensures k.Some? <==> t != HardLink && t != NotSup
  {
    match t
    case Regular => Some(RegularFile)
    case Directory => Some(DirectoryFile)
    case CharDev => Some(CharDevice)
    case BlockDev => Some(BlockDevice)
    case Fifo => Some(FifoFile)
    case SymLink => Some(SymbolicLink)
    case HardLink => None
    case NotSup => None
  }

  /** Every type lstat can report but "other" survives the classification. */
  lemma KindRoundTrip(k: FileKind)
    ensures k != OtherFile ==> FlagKind(KindFlag(k)) == Some(k)
    ensures k == OtherFile ==> FlagKind(KindFlag(k)) == None
  {
  }

  // The permission macros, with their POSIX values.
  const S_IRUSR: bv32 := 0x100   // 0400
  const S_IWUSR: bv32 := 0x80    // 0200
  const S_IXUSR: bv32 := 0x40    // 0100
  const S_IRGRP: bv32 := 0x20    // 0040
  const S_IWGRP: bv32 := 0x10    // 0020
  const S_IXGRP: bv32 := 0x8     // 0010
  const S_IROTH: bv32 := 0x4     // 0004
  const S_IWOTH: bv32 := 0x2     // 0002
  const S_IXOTH: bv32 := 0x1     // 0001

  /** `if (st_mode & mask) mode |= bit;` as the bit it contributes. */
  function BitIf(m: bv32, mask: bv32, bit: bv32): bv32 {
    if m & mask != 0 then bit else 0
  }

  /** The same for a macro inside #ifdef: nothing when it is not defined. */
  function BitIfDefined(m: bv32, mask: Option<bv32>, bit: bv32): bv32 {
    match mask
    case None => 0
    case Some(x) => BitIf(m, x, bit)
  }

  /** The nine permission bits fillup_entry ORs together. */
  function PermissionBits(m: bv32): bv32 {
    BitIf(m, S_IRUSR, 0x100) | BitIf(m, S_IWUSR, 0x80) | BitIf(m, S_IXUSR, 0x40)
    | BitIf(m, S_IRGRP, 0x20) | BitIf(m, S_IWGRP, 0x10) | BitIf(m, S_IXGRP, 0x8)
    | BitIf(m, S_IROTH, 0x4) | BitIf(m, S_IWOTH, 0x2) | BitIf(m, S_IXOTH, 0x1)
  }

  /** The three bits under #ifdef. */
  function SpecialBits(m: bv32, p: Platform): bv32 {
    BitIfDefined(m, p.ixuid, 0x800)     // 04000
    | BitIfDefined(m, p.ixgid, 0x400)   // 02000
    | BitIfDefined(m, p.isvtx, 0x200)   // 01000
  }

  /** The USTAR mode fillup_entry ORs together, starting from the zero the
      fresh header holds. */
  function ModeBits(m: bv32, p: Platform): bv32 {
    PermissionBits(m) | SpecialBits(m, p)
  }

  /** The nine permission bits are copied exactly, as the macros have the
      values of the USTAR bits. */
  lemma PermissionBitsCopied(m: bv32)
    ensures PermissionBits(m) == m & 0x1FF
  {
  }

  /** A defined macro contributes its bit exactly when the file has it. */
  predicate Has(m: bv32, mask: Option<bv32>) {
    mask.Some? && m & mask.value != 0
  }

  lemma SpecialBitsSpec(m: bv32, p: Platform)
    ensures SpecialBits(m, p) & 0x800 != 0 <==> Has(m, p.ixuid)
    ensures SpecialBits(m, p) & 0x400 != 0 <==> Has(m, p.ixgid)
    ensures SpecialBits(m, p) & 0x200 != 0 <==> Has(m, p.isvtx)
    ensures SpecialBits(m, p) & 0xFFFF_F1FF == 0
  {
    var a, b, c := BitIfDefined(m, p.ixuid, 0x800), BitIfDefined(m, p.ixgid, 0x400), BitIfDefined(m, p.isvtx, 0x200);
    BitIfDefinedSpec(m, p.ixuid, 0x800);
    BitIfDefinedSpec(m, p.ixgid, 0x400);
    BitIfDefinedSpec(m, p.isvtx, 0x200);
    ThreeBits(a, b, c);
  }

  lemma BitIfDefinedSpec(m: bv32, mask: Option<bv32>, bit: bv32)
    requires bit != 0
    ensures BitIfDefined(m, mask, bit) == if Has(m, mask) then bit else 0
  {
  }

  /** Three flags at 04000, 02000 and 01000 stay apart when ORed. */
  lemma ThreeBits(a: bv32, b: bv32, c: bv32)
    requires (a == 0 || a == 0x800) && (b == 0 || b == 0x400) && (c == 0 || c == 0x200)
    ensures (a | b | c) & 0x800 == a
    ensures (a | b | c) & 0x400 == b
    ensures (a | b | c) & 0x200 == c
    ensures (a | b | c) & 0xFFFF_F1FF == 0
  {
  }

  /** The nine permission bits are copied exactly; 04000, 02000 and 01000 are
      set exactly when the platform defines the corresponding macro and the
      file has that bit; nothing above 07777 is ever set. */
  lemma ModeBitsSpec(m: bv32, p: Platform)
    ensures ModeBits(m, p) & 0x1FF == m & 0x1FF
    ensures ModeBits(m, p) & 0x800 != 0 <==> Has(m, p.ixuid)
    ensures ModeBits(m, p) & 0x400 != 0 <==> Has(m, p.ixgid)
    ensures ModeBits(m, p) & 0x200 != 0 <==> Has(m, p.isvtx)
    ensures ModeBits(m, p) & 0xFFFF_F000 == 0
  {
    var q, s := PermissionBits(m), SpecialBits(m, p);
    PermissionBitsCopied(m);
    SpecialBitsSpec(m, p);
    OrSplit(q, s);
  }

  /** Masking distributes over the OR of a permission part and a special part. */
  lemma OrSplit(q: bv32, s: bv32)
    requires q & 0xFFFF_FE00 == 0 && s & 0xFFFF_F1FF == 0
    ensures (q | s) & 0x1FF == q
    ensures (q | s) & 0x800 == s & 0x800
    ensures (q | s) & 0x400 == s & 0x400
    ensures (q | s) & 0x200 == s & 0x200
    ensures (q | s) & 0xFFFF_F000 == 0
  {
  }

  /** fillup_entry after a successful lstat of name. */
  function FillupEntry(name: Path, st: Stat, p: Platform): (e: TarEntry)
    ensures e.name == name
  {
    var t := KindFlag(st.kind);
    TarEntry(name, t, ModeBits(st.mode, p) as nat, st.nlink, st.uid, st.gid,
             if t == Regular then st.size else 0,   // Only set the size for a regular file.
             st.mtime)
  }

  /** What the classification keeps: the type read back from the flag is the
      lstat type, owner and time are copied, the size is that of a regular
      file and 0 for every other type, and the entry is unsupported exactly
      for the types that have no flag; the mode is the OR of the bits above,
      which always fits the seven octal digits of the mode field. */
  lemma FillupSpec(name: Path, st: Stat, p: Platform)
    ensures var e := FillupEntry(name, st, p);
      && (st.kind != OtherFile ==> FlagKind(e.typeflag) == Some(st.kind))
      && (e.typeflag == NotSup <==> st.kind == OtherFile)
      && e.uid == st.uid && e.gid == st.gid && e.mtime == st.mtime && e.nlink == st.nlink
      && e.size == (if st.kind == RegularFile then st.size else 0)
      && e.mode == ModeBits(st.mode, p) as nat && e.mode < 4096
  {
    KindRoundTrip(st.kind);
    ModeFits(st.mode, p);
  }

  /** The mode fillup_entry builds fits twelve bits. */
  lemma ModeFits(m: bv32, p: Platform)
    ensures (ModeBits(m, p) as nat) < 4096
  {
    ModeBitsSpec(m, p);
    SmallBits(ModeBits(m, p));
  }

  /** A mode with nothing above 07777 is below 4096 as a number. */
  lemma SmallBits(m: bv32)
    requires m & 0xFFFF_F000 == 0
    ensures (m as nat) < 4096
  {
    assert m < 0x1000;
  }
}
