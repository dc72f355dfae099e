/** What build_header puts into a record, stated field by field: the name
    split into prefix and name, the numeric fields, the type flag, the
    link target, magic and version, owner names, and the checksum over the
    whole record. */
module Header {
  import opened Common
  import opened NumericField
  import opened Entry
  import opened Layout

  // ---------------------------------------------------------------------
  // Name and prefix

  /** A name as stored: the prefix field and the name field. */
  datatype NameSplit = NameSplit(prefix: seq<byte>, name: seq<byte>)

  /** The index `for (n--; n; n--) if (name[n] == '/') break;` stops at when
      it starts from n: a slash at or below n, or 0 when none is above 0. */
  function SlashScan(name: Path, n: nat): (i: nat)
    requires n < |name|
    ensures i <= n
  {
    if n == 0 || name[n] == Slash then n else SlashScan(name, n - 1)
  }

  /** The scan finds the rightmost slash in [1, n]. */
  lemma {:induction false} SlashScanSpec(name: Path, n: nat)
    requires n < |name|
    ensures SlashScan(name, n) <= n
    ensures SlashScan(name, n) > 0 ==> name[SlashScan(name, n)] == Slash
    ensures forall j :: SlashScan(name, n) < j <= n ==> name[j] != Slash
    decreases n
  {
    if n > 0 && name[n] != Slash {
      SlashScanSpec(name, n - 1);
    }
  }

  /** How build_header stores a name: verbatim when it is shorter than the
      100-byte name field, otherwise split at the rightmost slash that leaves
      a prefix of at most 154 bytes, the slash itself not stored, provided the
      rest fits the name field with its NUL. */
  function SplitName(name: Path): (r: Result<NameSplit>)
    ensures r.Ok? ==> |r.value.prefix| < 155 && |r.value.name| < 100
  {
    if |name| < 100 then
      Ok(NameSplit([], name))
    else
      var n := SlashScan(name, Min(|name|, 155) - 1);
      if |name| - n < 100 then Ok(NameSplit(name[..n], name[n + 1..])) else Err(TooLarge)
  }

  /** A long name can be stored exactly when some slash at index 1..154
      leaves fewer than 100 bytes behind it; the split then cuts at the
      rightmost such slash, drops only that slash, and both parts fit their
      fields with room for a NUL. */
  lemma SplitNameSpec(name: Path)
    ensures |name| < 100 ==> SplitName(name) == Ok(NameSplit([], name))
    ensures |name| >= 100 ==>
      (SplitName(name).Ok? <==> exists n :: 0 < n < Min(|name|, 155) && name[n] == Slash && |name| - n < 100)
    ensures SplitName(name).Err? ==> SplitName(name).error == TooLarge
    ensures SplitName(name).Ok? ==> var s := SplitName(name).value;
      && |s.prefix| < 155 && |s.name| < 100
      && (|name| >= 100 ==>
            && s.prefix != []
            && s.prefix + [Slash] + s.name == name
            && forall j :: |s.prefix| < j < Min(|name|, 155) ==> name[j] != Slash)
  {
    if |name| >= 100 {
      var top := Min(|name|, 155) - 1;
      var i := SlashScan(name, top);
      SlashScanSpec(name, top);
      if SplitName(name).Ok? {
        assert 0 < i && name[i] == Slash && |name| - i < 100;
        assert name[..i] + [Slash] + name[i + 1..] == name;
      }
      if exists n :: 0 < n < Min(|name|, 155) && name[n] == Slash && |name| - n < 100 {
        var n :| 0 < n < Min(|name|, 155) && name[n] == Slash && |name| - n < 100;
        assert n <= i;
      }
    }
  }

  /** How a tar reader joins the two fields back into a path. */
  function JoinName(prefixField: seq<byte>, nameField: seq<byte>): Path {
    var p := CStr(prefixField);
    if p == [] then CStr(nameField) else p + [Slash] + CStr(nameField)
  }

  /** A reader gets the original name back from the stored fields. */
  lemma NameRoundTrip(name: Path)
    requires NoNul(name) && SplitName(name).Ok?
    ensures var s := SplitName(name).value;
      JoinName(Pad(s.prefix, 155), Pad(s.name, 100)) == name
  {
    var s := SplitName(name).value;
    SplitNameSpec(name);
    if |name| >= 100 {
      assert s.prefix == name[..|s.prefix|];
      assert s.name == name[|s.prefix| + 1..];
    }
    assert NoNul(s.prefix) && NoNul(s.name);
    CStrPad(s.prefix, 155);
    CStrPad(s.name, 100);
  }

  // ---------------------------------------------------------------------
  // Type flag

  /** The switch over hdr->typeflag: the USTAR type character, or
      NotSupported for an entry of no supported type. */
  function TypeFlagChar(t: TypeFlag): Result<byte> {
    match t
    case Regular => Ok(48)     // '0'
    case HardLink => Ok(49)    // '1'
    case SymLink => Ok(50)     // '2'
    case CharDev => Ok(51)     // '3'
    case BlockDev => Ok(52)    // '4'
    case Directory => Ok(53)   // '5'
    case Fifo => Ok(54)        // '6'
    case NotSup => Err(NotSupported)
  }

  /** The type a reader sees in a type character. */
  function FlagOfChar(c: byte): Option<TypeFlag> {
    if c == 48 then Some(Regular)
    else if c == 49 then Some(HardLink)
    else if c == 50 then Some(SymLink)
    else if c == 51 then Some(CharDev)
    else if c == 52 then Some(BlockDev)
    else if c == 53 then Some(Directory)
    else if c == 54 then Some(Fifo)
    else None
  }

  /** Every supported type gets its own character, read back as that type,
      and every character the reader knows comes from exactly one type. */
  lemma TypeFlagRoundTrip(t: TypeFlag, c: byte)
    ensures TypeFlagChar(t).Ok? <==> t != NotSup
    ensures TypeFlagChar(t).Err? ==> TypeFlagChar(t).error == NotSupported
    ensures TypeFlagChar(t).Ok? ==> FlagOfChar(TypeFlagChar(t).value) == Some(t)
    ensures FlagOfChar(c) == Some(t) ==> TypeFlagChar(t) == Ok(c)
  {
  }

  // ---------------------------------------------------------------------
  // Link name, magic and version

  /** The linkname field: for a symbolic link, the target readlink returns
      (None when readlink fails) cut to 99 bytes and NUL-terminated; zero for
      every other type. */
  function LinkField(t: TypeFlag, link: Option<seq<byte>>): (r: Result<seq<byte>>)
    ensures r.Ok? ==> |r.value| == 100
  {
    if t != SymLink then Ok(Zeros(100))
    else match link
      case None => Err(LinkReadError)
      case Some(target) => Ok(Pad(target[..Min(|target|, 99)], 100))
  }

  /** "ustar" with its NUL. */
  const Magic: seq<byte> := [117, 115, 116, 97, 114, 0]
  /** "00" */
  const Version: seq<byte> := [48, 48]

  // ---------------------------------------------------------------------
  // Checksum

  /** The unsigned sum of the bytes of s. */
  function Sum(s: seq<byte>): nat {
    if s == [] then 0 else Sum(s[..|s| - 1]) + s[|s| - 1]
  }

  lemma {:induction false} SumBound(s: seq<byte>)
    ensures Sum(s) <= 255 * |s|
    decreases |s|
  {
    if s != [] {
      SumBound(s[..|s| - 1]);
    }
  }

  /** The checksum field: six octal digits, NUL, space. */
  function ChecksumField(sum: nat): (f: seq<byte>)
    ensures |f| == 8
  {
    Digits(sum, 6, 8, DigitZero) + [Nul, Space]
  }

  lemma PowEightSix()
    ensures Pow(8, 6) == 262144
  {
    assert Pow(8, 1) == 8;
    assert Pow(8, 2) == 64;
    assert Pow(8, 3) == 512;
    assert Pow(8, 4) == 4096;
    assert Pow(8, 5) == 32768;
  }

  /** The sum of a record always fits six octal digits, so store_xoctal of
      the checksum takes the octal path; the trailing space then replaces
      the byte after the NUL. */
  lemma ChecksumStore(sum: nat)
    requires sum <= 255 * RecordSize
    ensures EncodeNumeric(7, sum) == Ok(ChecksumField(sum)[..7])
    ensures Put(Put(Spaces(8), 0, ChecksumField(sum)[..7]), 7, [Space]) == ChecksumField(sum)
  {
    PowEightSix();
    assert ChecksumField(sum)[..7] == Digits(sum, 6, 8, DigitZero) + [Nul];
  }

  // ---------------------------------------------------------------------
  // The record

  /** The values build_header computes from the entry before it writes
      them: the split name, the five numeric fields, the type character and
      the linkname field. */
  datatype Parts = Parts(
    split: NameSplit,
    mode: seq<byte>,
    uid: seq<byte>,
    gid: seq<byte>,
    size: seq<byte>,
    mtime: seq<byte>,
    flag: byte,
    linkname: seq<byte>)

  /** Every part fits its field. */
  predicate PartsOk(p: Parts) {
    && |p.split.prefix| < 155 && |p.split.name| < 100
    && |p.mode| == 8 && |p.uid| == 8 && |p.gid| == 8 && |p.size| == 12 && |p.mtime| == 12
    && |p.linkname| == 100
  }

  /** The parts of the header of e, or the first error in the order
      build_header meets them: a name that cannot be split, a numeric value
      that does not fit (BUG), an unsupported type, a failing readlink. */
  function HeaderParts(e: TarEntry, link: Option<seq<byte>>): (r: Result<Parts>)
    ensures r.Ok? ==> PartsOk(r.value)
  {
    var split :- SplitName(e.name);
    var mode :- EncodeNumeric(8, e.mode);
    var uid :- EncodeNumeric(8, e.uid);
    var gid :- EncodeNumeric(8, e.gid);
    var size :- EncodeNumeric(12, e.size);
    var mtime :- EncodeNumeric(12, e.mtime);
    var flag :- TypeFlagChar(e.typeflag);
    var linkname :- LinkField(e.typeflag, link);
    Ok(Parts(split, mode, uid, gid, size, mtime, flag, linkname))
  }

  /** The seventeen fields of the record before its checksum is stored,
      the checksum field holding the eight spaces it is summed as; uname and
      gname are the names the owner caches provide. */
  function PartFields(p: Parts, uname: seq<byte>, gname: seq<byte>): seq<seq<byte>>
    requires PartsOk(p) && |uname| < 32 && |gname| < 32
  {
    [Pad(p.split.name, 100), p.mode, p.uid, p.gid, p.size, p.mtime, Spaces(8), [p.flag], p.linkname,
     Magic, Version, Pad(uname, 32), Pad(gname, 32), Zeros(8), Zeros(8),
     Pad(p.split.prefix, 155), Zeros(12)]
  }

  lemma PartFieldsOk(p: Parts, uname: seq<byte>, gname: seq<byte>)
    requires PartsOk(p) && |uname| < 32 && |gname| < 32
    ensures FieldsOk(PartFields(p, uname, gname))
    ensures PartFields(p, uname, gname)[ChecksumF] == Spaces(8)
  {
    var fs := PartFields(p, uname, gname);
    forall k | 0 <= k < FieldCount ensures |fs[k]| == Width(k) {
    }
  }

  /** A record whose checksum field is filled in: the field holds the sum of
      the bytes of the record as it was before. */
  function Checksummed(fs: seq<seq<byte>>): seq<byte>
    requires |fs| == FieldCount
  {
    Flatten(fs[ChecksumF := ChecksumField(Sum(Flatten(fs)))])
  }

  /** The record build_header leaves for e, or its error. */
  function HeaderRecord(e: TarEntry, uname: seq<byte>, gname: seq<byte>, link: Option<seq<byte>>)
    : (r: Result<seq<byte>>)
    requires |uname| < 32 && |gname| < 32
    ensures r.Ok? ==> |r.value| == RecordSize
  {
    var p :- HeaderParts(e, link);
    var fs := PartFields(p, uname, gname);
    PartFieldsOk(p, uname, gname);
    assert FieldsOk(fs[ChecksumF := ChecksumField(Sum(Flatten(fs)))]);
    FlattenLength(fs[ChecksumF := ChecksumField(Sum(Flatten(fs)))]);
    Ok(Checksummed(fs))
  }

  /** The numeric values fit their fields, so that no store_xoctal aborts. */
  predicate NumbersFit(e: TarEntry) {
    && e.mode < BinaryLimit(8) && e.uid < BinaryLimit(8) && e.gid < BinaryLimit(8)
    && e.size < BinaryLimit(12) && e.mtime < BinaryLimit(12)
  }

  /** Every store_xoctal of the entry's values succeeds. */
  predicate NumbersOk(e: TarEntry) {
    && EncodeNumeric(8, e.mode).Ok? && EncodeNumeric(8, e.uid).Ok? && EncodeNumeric(8, e.gid).Ok?
    && EncodeNumeric(12, e.size).Ok? && EncodeNumeric(12, e.mtime).Ok?
  }

  /** The numeric fields are computed exactly when the values fit. */
  lemma NumbersIff(e: TarEntry)
    ensures NumbersFit(e) <==> NumbersOk(e)
  {
    EncodeFailsIff(8, e.mode);
    EncodeFailsIff(8, e.uid);
    EncodeFailsIff(8, e.gid);
    EncodeFailsIff(12, e.size);
    EncodeFailsIff(12, e.mtime);
  }

  /** build_header succeeds exactly when the name can be split, the numbers
      fit, the type is supported and, for a symbolic link, readlink works. */
  lemma HeaderOkIff(e: TarEntry, link: Option<seq<byte>>)
    ensures HeaderParts(e, link).Ok? <==>
      && SplitName(e.name).Ok? && NumbersFit(e) && e.typeflag != NotSup
      && !(e.typeflag == SymLink && link.None?)
  {
    NumbersIff(e);
  }

  /** The errors come in build_header's order: a name too long to split is
      reported before anything else, a number too large for its field
      (BUG) before an unsupported type, and that before a failing readlink. */
  lemma HeaderErrorOrder(e: TarEntry, link: Option<seq<byte>>)
    ensures SplitName(e.name).Err? ==> HeaderParts(e, link) == Err(TooLarge)
    ensures SplitName(e.name).Ok? && !NumbersFit(e) ==> HeaderParts(e, link) == Err(Bug)
    ensures SplitName(e.name).Ok? && NumbersFit(e) && e.typeflag == NotSup ==>
      HeaderParts(e, link) == Err(NotSupported)
    ensures SplitName(e.name).Ok? && NumbersFit(e) && e.typeflag == SymLink && link.None? ==>
      HeaderParts(e, link) == Err(LinkReadError)
  {
    SplitNameSpec(e.name);
    if SplitName(e.name).Ok? {
      if !NumbersFit(e) {
        NumbersBug(e, link);
      } else {
        NumbersIff(e);
      }
    }
  }

  lemma NumbersBug(e: TarEntry, link: Option<seq<byte>>)
    requires SplitName(e.name).Ok? && !NumbersFit(e)
    ensures HeaderParts(e, link) == Err(Bug)
  {
    EncodeFailsIff(8, e.mode);
    EncodeFailsIff(8, e.uid);
    EncodeFailsIff(8, e.gid);
    EncodeFailsIff(12, e.size);
    EncodeFailsIff(12, e.mtime);
  }

  /** A reader verifying a checksummed record finds the checksum right: the
      octal number in the first seven bytes of the checksum field is the sum
      of the record with that field counted as eight spaces. */
  lemma ChecksumVerifies(fs: seq<seq<byte>>)
    requires FieldsOk(fs) && fs[ChecksumF] == Spaces(8)
    ensures var r := Checksummed(fs);
      && |r| == RecordSize
      && DecodeNumeric(r[148..155]) == Some(Sum(r[..148] + Spaces(8) + r[156..]))
      && r[154] == Nul && r[155] == Space
  {
    var sum := Sum(Flatten(fs));
    var gs := fs[ChecksumF := ChecksumField(sum)];
    var r := Flatten(gs);
    assert FieldsOk(gs);
    OffsetsAdd();
    FlattenLength(gs);
    FlattenSplit(fs, ChecksumF);
    FlattenSplit(gs, ChecksumF);
    FlattenPrefixLength(fs, ChecksumF);
    assert gs[..ChecksumF] == fs[..ChecksumF] && gs[ChecksumF + 1..] == fs[ChecksumF + 1..];
    assert r[..148] + Spaces(8) + r[156..] == Flatten(fs);
    assert r[148..156] == ChecksumField(sum);
    FlattenLength(fs);
    SumBound(Flatten(fs));
    ChecksumStore(sum);
    assert r[148..155] == ChecksumField(sum)[..7];
    RoundTrip(7, sum);
  }

  /** Storing the checksum leaves every other field as it was. */
  lemma ChecksummedField(fs: seq<seq<byte>>, k: nat)
    requires FieldsOk(fs) && k < FieldCount && k != ChecksumF
    ensures |Checksummed(fs)| == RecordSize
    ensures Checksummed(fs)[Offset(k)..Offset(k + 1)] == fs[k]
  {
    var gs := fs[ChecksumF := ChecksumField(Sum(Flatten(fs)))];
    assert FieldsOk(gs);
    FieldAt(gs, k);
  }

  /** The parts of a header that can be built are the values computed from
      the entry, each as its own function gives it. */
  lemma PartsOf(e: TarEntry, link: Option<seq<byte>>)
    requires HeaderParts(e, link).Ok?
    ensures var p := HeaderParts(e, link).value;
      && SplitName(e.name) == Ok(p.split)
      && EncodeNumeric(8, e.mode) == Ok(p.mode)
      && EncodeNumeric(8, e.uid) == Ok(p.uid)
      && EncodeNumeric(8, e.gid) == Ok(p.gid)
      && EncodeNumeric(12, e.size) == Ok(p.size)
      && EncodeNumeric(12, e.mtime) == Ok(p.mtime)
      && TypeFlagChar(e.typeflag) == Ok(p.flag)
      && LinkField(e.typeflag, link) == Ok(p.linkname)
  {
  }

  /** Where each part lands in the record. */
  lemma PartsLaidOut(p: Parts, uname: seq<byte>, gname: seq<byte>)
    requires PartsOk(p) && |uname| < 32 && |gname| < 32
    ensures var r := Checksummed(PartFields(p, uname, gname));
      && |r| == RecordSize
      && r[0..100] == Pad(p.split.name, 100)
      && r[100..108] == p.mode && r[108..116] == p.uid && r[116..124] == p.gid
      && r[124..136] == p.size && r[136..148] == p.mtime
      && r[156] == p.flag && r[157..257] == p.linkname
      && r[257..263] == Magic && r[263..265] == Version
      && r[265..297] == Pad(uname, 32) && r[297..329] == Pad(gname, 32)
      && r[329..345] == Zeros(16)
      && r[345..500] == Pad(p.split.prefix, 155) && r[500..512] == Zeros(12)
  {
    var fs := PartFields(p, uname, gname);
    var r := Checksummed(fs);
    PartFieldsOk(p, uname, gname);
    OffsetsAdd();
    ChecksummedField(fs, NameF);
    ChecksummedField(fs, ModeF);
    ChecksummedField(fs, UidF);
    ChecksummedField(fs, GidF);
    ChecksummedField(fs, SizeF);
    ChecksummedField(fs, MtimeF);
    ChecksummedField(fs, TypeflagF);
    assert r[156] == r[156..157][0];
    ChecksummedField(fs, LinknameF);
    ChecksummedField(fs, MagicF);
    ChecksummedField(fs, VersionF);
    ChecksummedField(fs, UnameF);
    ChecksummedField(fs, GnameF);
    ChecksummedField(fs, DevmajorF);
    ChecksummedField(fs, DevminorF);
    assert r[329..345] == r[329..337] + r[337..345];
    ChecksummedField(fs, PrefixF);
    ChecksummedField(fs, PadF);
  }

  /** A reader decodes the entry's numeric values and type back from the
      record. */
  lemma ReadBackNumbers(e: TarEntry, uname: seq<byte>, gname: seq<byte>, link: Option<seq<byte>>)
    requires |uname| < 32 && |gname| < 32
    requires HeaderParts(e, link).Ok?
    ensures var r := Checksummed(PartFields(HeaderParts(e, link).value, uname, gname));
      && |r| == RecordSize
      && DecodeNumeric(r[100..108]) == Some(e.mode)
      && DecodeNumeric(r[108..116]) == Some(e.uid)
      && DecodeNumeric(r[116..124]) == Some(e.gid)
      && DecodeNumeric(r[124..136]) == Some(e.size)
      && DecodeNumeric(r[136..148]) == Some(e.mtime)
      && FlagOfChar(r[156]) == Some(e.typeflag)
  {
    var p := HeaderParts(e, link).value;
    PartsOf(e, link);
    PartsLaidOut(p, uname, gname);
    RoundTrip(8, e.mode);
    RoundTrip(8, e.uid);
    RoundTrip(8, e.gid);
    RoundTrip(12, e.size);
    RoundTrip(12, e.mtime);
    TypeFlagRoundTrip(e.typeflag, p.flag);
  }

  /** A reader finds the name, the owner names, the link target, the magic
      and the version in the record. */
  lemma ReadBackStrings(e: TarEntry, uname: seq<byte>, gname: seq<byte>, link: Option<seq<byte>>)
    requires |uname| < 32 && |gname| < 32 && NoNul(uname) && NoNul(gname)
    requires HeaderParts(e, link).Ok?
    ensures var r := Checksummed(PartFields(HeaderParts(e, link).value, uname, gname));
      && |r| == RecordSize
      && (NoNul(e.name) ==> JoinName(r[345..500], r[0..100]) == e.name)
      && CStr(r[265..297]) == uname && CStr(r[297..329]) == gname
      && (e.typeflag == SymLink && link.Some? && NoNul(link.value) ==>
            CStr(r[157..257]) == link.value[..Min(|link.value|, 99)])
      && (e.typeflag != SymLink ==> r[157..257] == Zeros(100))
      && r[257..263] == Magic && r[263..265] == Version
  {
    var p := HeaderParts(e, link).value;
    PartsOf(e, link);
    PartsLaidOut(p, uname, gname);
    if NoNul(e.name) {
      NameRoundTrip(e.name);
    }
    CStrPad(uname, 32);
    CStrPad(gname, 32);
    if e.typeflag == SymLink && link.Some? && NoNul(link.value) {
      var t := link.value[..Min(|link.value|, 99)];
      assert NoNul(t);
      CStrPad(t, 100);
    }
  }
}
