/** build_header as the C code runs it: memset the record, then store each
    field in place, and finally sum the record and store the checksum. The
    record is followed as the sequence of its fields (a ghost value) so that
    every write can be matched with the field it lands in. */
module HeaderBuilder {
  import opened Common
  import opened NumericField
  import opened Entry
  import opened Layout
  import opened IdCache
  import opened Header

  /** memcpy into a zeroed field k: the field then holds x padded. */
  method CopyField(record: array<byte>, k: nat, x: seq<byte>, ghost fs: seq<seq<byte>>)
    returns (ghost fs2: seq<seq<byte>>)
    requires FieldsOk(fs) && record[..] == Flatten(fs) && k < FieldCount
    requires |x| <= Width(k) && fs[k] == Zeros(Width(k))
    modifies record
    ensures FieldsOk(fs2) && record[..] == Flatten(fs2)
    ensures fs2 == fs[k := Pad(x, Width(k))]
  {
    OffsetsAdd();
    FlattenLength(fs);
    Copy(record, Offset(k), x);
    PutField(fs, k, 0, x);
    PutZeros(x, Width(k));
    fs2 := fs[k := Pad(x, Width(k))];
  }

  /** store_xoctal (raw->field, sizeof raw->field, value) for field k. */
  method StoreField(record: array<byte>, k: nat, length: nat, value: nat, ghost fs: seq<seq<byte>>)
    returns (ok: bool, ghost fs2: seq<seq<byte>>)
    requires FieldsOk(fs) && record[..] == Flatten(fs) && k < FieldCount && Width(k) == length > 1
    modifies record
    ensures ok <==> EncodeNumeric(length, value).Ok?
    ensures ok ==> FieldsOk(fs2) && record[..] == Flatten(fs2)
    ensures ok ==> fs2 == fs[k := EncodeNumeric(length, value).value]
  {
    OffsetsAdd();
    FlattenLength(fs);
    ok := StoreXOctal(record, Offset(k), length, value);
    fs2 := fs;
    if ok {
      var f := EncodeNumeric(length, value).value;
      PutField(fs, k, 0, f);
      assert Put(fs[k], 0, f) == f;
      fs2 := fs[k := f];
    }
  }

  /** The name and prefix part of build_header: a short name is copied as
      it is; a long one is split at the slash the scan down from index
      min(namelen, 155) - 1 finds, or refused as too large. */
  method StoreName(record: array<byte>, name: Path, ghost fs: seq<seq<byte>>)
    returns (ok: bool, ghost fs2: seq<seq<byte>>)
    requires FieldsOk(fs) && record[..] == Flatten(fs)
    requires fs[NameF] == Zeros(100) && fs[PrefixF] == Zeros(155)
    modifies record
    ensures ok <==> SplitName(name).Ok?
    ensures ok ==> FieldsOk(fs2) && record[..] == Flatten(fs2)
    ensures ok ==> var s := SplitName(name).value;
      fs2 == fs[NameF := Pad(s.name, 100)][PrefixF := Pad(s.prefix, 155)]
  {
    var namelen := |name|;
    fs2 := fs;
    if namelen < 100 {
      fs2 := CopyField(record, NameF, name, fs);
      assert Pad([], 155) == Zeros(155);
      ok := true;
    } else {
      var n: nat := Min(namelen, 155) - 1;
      while n != 0 && name[n] != Slash
        invariant n <= Min(namelen, 155) - 1
        invariant SlashScan(name, n) == SlashScan(name, Min(namelen, 155) - 1)
        decreases n
      {
        n := n - 1;
      }
      if namelen - n < 100 {
        // The delimiting slash is not stored.
        var fs1 := CopyField(record, PrefixF, name[..n], fs);
        fs2 := CopyString(record, NameF, name[n + 1..], fs1);
        ok := true;
      } else {
        ok := false;
      }
    }
  }

  /** memcpy of a string and its NUL into a zeroed field k. */
  method CopyString(record: array<byte>, k: nat, x: seq<byte>, ghost fs: seq<seq<byte>>)
    returns (ghost fs2: seq<seq<byte>>)
    requires FieldsOk(fs) && record[..] == Flatten(fs) && k < FieldCount
    requires |x| < Width(k) && fs[k] == Zeros(Width(k))
    modifies record
    ensures FieldsOk(fs2) && record[..] == Flatten(fs2)
    ensures fs2 == fs[k := Pad(x, Width(k))]
  {
    OffsetsAdd();
    FlattenLength(fs);
    Copy(record, Offset(k), x + [Nul]);
    PutField(fs, k, 0, x + [Nul]);
    PutTerminated(x, Width(k));
    fs2 := fs[k := Pad(x, Width(k))];
  }

  /** The loop that adds up the bytes of the record. */
  method RecordSum(record: array<byte>) returns (chksum: nat)
    ensures chksum == Sum(record[..])
  {
    chksum := 0;
    var n := 0;
    while n < record.Length
      invariant n <= record.Length && chksum == Sum(record[..n])
    {
      assert record[..n + 1][..n] == record[..n];
      chksum := chksum + record[n];
      n := n + 1;
    }
    assert record[..record.Length] == record[..];
  }

  /** store_uname and store_gname into their zeroed fields. */
  method StoreOwners(record: array<byte>, uid: nat, gid: nat, ucache: NameCache, gcache: NameCache,
                     ghost fs: seq<seq<byte>>)
    returns (ghost fs2: seq<seq<byte>>)
    requires FieldsOk(fs) && record[..] == Flatten(fs)
    requires fs[UnameF] == Zeros(32) && fs[GnameF] == Zeros(32)
    requires ucache != gcache && ucache.Valid() && gcache.Valid()
    modifies record, ucache, gcache
    ensures ucache.Valid() && gcache.Valid()
    ensures ucache.initialized && ucache.lastId == uid && gcache.initialized && gcache.lastId == gid
    ensures FieldsOk(fs2) && record[..] == Flatten(fs2)
    ensures fs2 == fs[UnameF := Pad(ResolvedName(ucache.lookup, uid), 32)]
                     [GnameF := Pad(ResolvedName(gcache.lookup, gid), 32)]
  {
    OffsetsAdd();
    FlattenLength(fs);
    var un := ResolvedName(ucache.lookup, uid);
    ucache.Store(record, Offset(UnameF), NameFieldSize, uid);
    StoredName(ucache.lookup, uid);
    PutField(fs, UnameF, 0, un + [Nul]);
    PutTerminated(un, 32);
    var fs1 := fs[UnameF := Pad(un, 32)];
    var gn := ResolvedName(gcache.lookup, gid);
    gcache.Store(record, Offset(GnameF), NameFieldSize, gid);
    StoredName(gcache.lookup, gid);
    PutField(fs1, GnameF, 0, gn + [Nul]);
    PutTerminated(gn, 32);
    fs2 := fs1[GnameF := Pad(gn, 32)];
  }

  /** The checksum part of build_header: the field is set to spaces, the
      record summed, and the sum stored. */
  method StoreChecksum(record: array<byte>, ghost fs: seq<seq<byte>>)
    requires FieldsOk(fs) && record[..] == Flatten(fs) && fs[ChecksumF] == Zeros(8)
    modifies record
    ensures record[..] == Checksummed(fs[ChecksumF := Spaces(8)])
  {
    var fs1 := CopyField(record, ChecksumF, Spaces(8), fs);
    assert Pad(Spaces(8), 8) == Spaces(8) by {
      assert Zeros(0) == [];
    }
    var chksum := RecordSum(record);
    FlattenLength(fs1);
    SumBound(record[..]);
    WriteChecksum(record, chksum, fs1);
  }

  /** store_xoctal (raw->checksum, 7, chksum) and raw->checksum[7] = ' '. */
  method WriteChecksum(record: array<byte>, chksum: nat, ghost fs: seq<seq<byte>>)
    requires FieldsOk(fs) && record[..] == Flatten(fs) && fs[ChecksumF] == Spaces(8)
    requires chksum <= 255 * RecordSize
    modifies record
    ensures record[..] == Flatten(fs[ChecksumF := ChecksumField(chksum)])
  {
    FlattenLength(fs);
    ChecksumStore(chksum);
    ghost var field := ChecksumField(chksum);
    var ok := StoreXOctal(record, 148, 7, chksum);
    PutField(fs, ChecksumF, 0, field[..7]);
    ghost var fs2 := fs[ChecksumF := Put(Spaces(8), 0, field[..7])];
    assert record[..] == Flatten(fs2);
    ghost var prev := record[..];
    record[155] := Space;
    assert record[..] == Put(prev, 155, [Space]);
    PutField(fs2, ChecksumF, 7, [Space]);
    assert fs2[ChecksumF := Put(fs2[ChecksumF], 7, [Space])] == fs[ChecksumF := field];
  }

  /** Two store_xoctal calls in a row. */
  method StorePair(record: array<byte>, k1: nat, l1: nat, v1: nat, k2: nat, l2: nat, v2: nat,
                   ghost fs: seq<seq<byte>>)
    returns (ok: bool, ghost fs2: seq<seq<byte>>)
    requires FieldsOk(fs) && record[..] == Flatten(fs)
    requires k1 < FieldCount && Width(k1) == l1 > 1 && k2 < FieldCount && Width(k2) == l2 > 1
    modifies record
    ensures ok <==> EncodeNumeric(l1, v1).Ok? && EncodeNumeric(l2, v2).Ok?
    ensures ok ==> FieldsOk(fs2) && record[..] == Flatten(fs2)
    ensures ok ==> fs2 == fs[k1 := EncodeNumeric(l1, v1).value][k2 := EncodeNumeric(l2, v2).value]
  {
    ok, fs2 := StoreField(record, k1, l1, v1, fs);
    if ok {
      ok, fs2 := StoreField(record, k2, l2, v2, fs2);
    }
  }

  /** The five store_xoctal calls for mode, uid, gid, size and mtime; false
      when one of them would abort. */
  method StoreNumbers(record: array<byte>, mode: nat, uid: nat, gid: nat, size: nat, mtime: nat,
                      ghost fs: seq<seq<byte>>)
    returns (ok: bool, ghost fs2: seq<seq<byte>>)
    requires FieldsOk(fs) && record[..] == Flatten(fs)
    modifies record
    ensures ok <==>
      && EncodeNumeric(8, mode).Ok? && EncodeNumeric(8, uid).Ok? && EncodeNumeric(8, gid).Ok?
      && EncodeNumeric(12, size).Ok? && EncodeNumeric(12, mtime).Ok?
    ensures ok ==> FieldsOk(fs2) && record[..] == Flatten(fs2)
    ensures ok ==> fs2 == fs[ModeF := EncodeNumeric(8, mode).value]
                            [UidF := EncodeNumeric(8, uid).value]
                            [GidF := EncodeNumeric(8, gid).value]
                            [SizeF := EncodeNumeric(12, size).value]
                            [MtimeF := EncodeNumeric(12, mtime).value]
  {
    OffsetsAdd();
    ok, fs2 := StoreField(record, ModeF, 8, mode, fs);
    if ok {
      ok, fs2 := StorePair(record, UidF, 8, uid, GidF, 8, gid, fs2);
      if ok {
        ok, fs2 := StorePair(record, SizeF, 12, size, MtimeF, 12, mtime, fs2);
      }
    }
  }

  /** The type character, the magic "ustar" and the version "00". */
  method StoreMarkers(record: array<byte>, flag: byte, ghost fs: seq<seq<byte>>)
    returns (ghost fs2: seq<seq<byte>>)
    requires FieldsOk(fs) && record[..] == Flatten(fs)
    requires fs[TypeflagF] == Zeros(1) && fs[MagicF] == Zeros(6) && fs[VersionF] == Zeros(2)
    modifies record
    ensures FieldsOk(fs2) && record[..] == Flatten(fs2)
    ensures fs2 == fs[TypeflagF := [flag]][MagicF := Magic][VersionF := Version]
  {
    assert Zeros(0) == [];
    assert Pad([flag], 1) == [flag] && Pad(Magic, 6) == Magic && Pad(Version, 2) == Version;
    fs2 := CopyField(record, TypeflagF, [flag], fs);
    fs2 := CopyField(record, MagicF, Magic, fs2);
    fs2 := CopyField(record, VersionF, Version, fs2);
  }

  /** For a symbolic link, the readlink into the linkname field and its NUL;
      false when readlink fails. Other types leave the field zero. */
  method StoreLink(record: array<byte>, t: TypeFlag, link: Option<seq<byte>>, ghost fs: seq<seq<byte>>)
    returns (ok: bool, ghost fs2: seq<seq<byte>>)
    requires FieldsOk(fs) && record[..] == Flatten(fs) && fs[LinknameF] == Zeros(100)
    modifies record
    ensures ok <==> LinkField(t, link).Ok?
    ensures ok ==> FieldsOk(fs2) && record[..] == Flatten(fs2)
    ensures ok ==> fs2 == fs[LinknameF := LinkField(t, link).value]
  {
    fs2 := fs;
    ok := true;
    if t == SymLink {
      if link.None? {
        ok := false;
      } else {
        var target := link.value[..Min(|link.value|, 99)];
        fs2 := CopyString(record, LinknameF, target, fs);
      }
    } else {
      assert fs == fs[LinknameF := Zeros(100)];
    }
  }

  /** The link name, then the checksum over the finished record. */
  method LinkAndChecksum(record: array<byte>, t: TypeFlag, link: Option<seq<byte>>, ghost fs: seq<seq<byte>>)
    returns (ok: bool)
    requires FieldsOk(fs) && record[..] == Flatten(fs)
    requires fs[LinknameF] == Zeros(100) && fs[ChecksumF] == Zeros(8)
    modifies record
    ensures ok <==> LinkField(t, link).Ok?
    ensures ok ==> record[..] == Checksummed(fs[LinknameF := LinkField(t, link).value][ChecksumF := Spaces(8)])
  {
    ghost var fs2;
    ok, fs2 := StoreLink(record, t, link, fs);
    if ok {
      StoreChecksum(record, fs2);
    }
  }

  /** The fields once the name and the numbers are stored. */
  ghost function StartFields(e: TarEntry): seq<seq<byte>>
    requires SplitName(e.name).Ok? && NumbersOk(e)
  {
    var s := SplitName(e.name).value;
    ZeroFields()[NameF := Pad(s.name, 100)][PrefixF := Pad(s.prefix, 155)]
      [ModeF := EncodeNumeric(8, e.mode).value][UidF := EncodeNumeric(8, e.uid).value]
      [GidF := EncodeNumeric(8, e.gid).value][SizeF := EncodeNumeric(12, e.size).value]
      [MtimeF := EncodeNumeric(12, e.mtime).value]
  }

  /** The fields still zero after the first half. */
  lemma StartFieldsZero(e: TarEntry)
    requires SplitName(e.name).Ok? && NumbersOk(e)
    ensures var fs := StartFields(e);
      && FieldsOk(fs)
      && fs[TypeflagF] == Zeros(1) && fs[MagicF] == Zeros(6) && fs[VersionF] == Zeros(2)
      && fs[UnameF] == Zeros(32) && fs[GnameF] == Zeros(32)
      && fs[LinknameF] == Zeros(100) && fs[ChecksumF] == Zeros(8)
  {
  }

  /** The fields the second half adds, the checksum field as spaces. */
  ghost function FinishFields(fs: seq<seq<byte>>, flag: byte, uname: seq<byte>, gname: seq<byte>,
                              linkname: seq<byte>): seq<seq<byte>>
    requires |fs| == FieldCount && |uname| < 32 && |gname| < 32
  {
    fs[TypeflagF := [flag]][MagicF := Magic][VersionF := Version]
      [UnameF := Pad(uname, 32)][GnameF := Pad(gname, 32)]
      [LinknameF := linkname][ChecksumF := Spaces(8)]
  }

  /** Everything build_header does once the type is known to be supported. */
  method FinishHeader(record: array<byte>, e: TarEntry, ucache: NameCache, gcache: NameCache,
                      link: Option<seq<byte>>, flag: byte, ghost fs: seq<seq<byte>>)
    returns (ok: bool)
    requires FieldsOk(fs) && record[..] == Flatten(fs)
    requires fs[TypeflagF] == Zeros(1) && fs[MagicF] == Zeros(6) && fs[VersionF] == Zeros(2)
    requires fs[UnameF] == Zeros(32) && fs[GnameF] == Zeros(32)
    requires fs[LinknameF] == Zeros(100) && fs[ChecksumF] == Zeros(8)
    requires ucache != gcache && ucache.Valid() && gcache.Valid()
    modifies record, ucache, gcache
    ensures ucache.Valid() && gcache.Valid()
    ensures ucache.initialized && ucache.lastId == e.uid && gcache.initialized && gcache.lastId == e.gid
    ensures ok <==> LinkField(e.typeflag, link).Ok?
    ensures ok ==> record[..] == Checksummed(FinishFields(fs, flag, ResolvedName(ucache.lookup, e.uid),
                                                          ResolvedName(gcache.lookup, e.gid),
                                                          LinkField(e.typeflag, link).value))
  {
    ghost var fs1 := StoreMarkers(record, flag, fs);
    ghost var fs2 := StoreOwners(record, e.uid, e.gid, ucache, gcache, fs1);
    ok := LinkAndChecksum(record, e.typeflag, link, fs2);
  }

  /** The fields of a header are those build_header writes, one by one, into
      the zeroed record. */
  lemma Assemble(e: TarEntry, link: Option<seq<byte>>, uname: seq<byte>, gname: seq<byte>)
    requires HeaderParts(e, link).Ok? && |uname| < 32 && |gname| < 32
    ensures SplitName(e.name).Ok? && NumbersOk(e)
    ensures var p := HeaderParts(e, link).value;
      PartFields(p, uname, gname) == FinishFields(StartFields(e), p.flag, uname, gname, p.linkname)
  {
    PartsOf(e, link);
  }

  /** The first half of build_header: the memset, the name and prefix, and
      the five numeric fields; TooLarge or Bug when one of them fails. */
  method StartHeader(record: array<byte>, e: TarEntry) returns (err: Option<Error>, ghost fs: seq<seq<byte>>)
    requires record.Length == RecordSize
    modifies record
    ensures err.None? <==> SplitName(e.name).Ok? && NumbersOk(e)
    ensures err.Some? ==> err.value == if SplitName(e.name).Err? then TooLarge else Bug
    ensures err.None? ==> FieldsOk(fs) && record[..] == Flatten(fs)
    ensures err.None? ==> fs == StartFields(e)
  {
    forall i | 0 <= i < RecordSize {
      record[i] := 0;
    }
    fs := ZeroFields();
    ZeroRecord();
    assert record[..] == Flatten(fs);
    var ok;
    ok, fs := StoreName(record, e.name, fs);
    if !ok {
      return Some(TooLarge), fs;
    }
    ok, fs := StoreNumbers(record, e.mode, e.uid, e.gid, e.size, e.mtime, fs);
    err := if ok then None else Some(Bug);
    assert err.None? ==> fs == StartFields(e);
  }

  /** True when build_header gets as far as store_uname and store_gname:
      the name splits, the numbers fit and the type is supported. */
  predicate ReachesOwners(e: TarEntry) {
    SplitName(e.name).Ok? && NumbersOk(e) && e.typeflag != NotSup
  }

  /** build_header (record, hdr). The owner names come from the two caches;
      link is what readlink returns for the entry's name (None when it
      fails). On success the record holds the header HeaderRecord describes;
      otherwise the error is the one HeaderRecord names. The caches have
      looked up the entry's uid and gid when the header got as far as the
      owner names, and are untouched otherwise. */
  method BuildHeader(record: array<byte>, e: TarEntry, ucache: NameCache, gcache: NameCache,
                     link: Option<seq<byte>>)
    returns (err: Option<Error>)
    requires record.Length == RecordSize
    requires ucache != gcache && ucache.Valid() && gcache.Valid()
    modifies record, ucache, gcache
    ensures ucache.Valid() && gcache.Valid()
    ensures ReachesOwners(e) ==>
      ucache.initialized && ucache.lastId == e.uid && gcache.initialized && gcache.lastId == e.gid
    ensures !ReachesOwners(e) ==> unchanged(ucache, gcache)
    ensures var h := HeaderRecord(e, ResolvedName(ucache.lookup, e.uid), ResolvedName(gcache.lookup, e.gid), link);
      && (err.None? ==> h == Ok(record[..]))
      && (err.Some? ==> h == Err(err.value))
  {
    HeaderErrorOrder(e, link);
    NumbersIff(e);
    ghost var fs;
    err, fs := StartHeader(record, e);
    if err.Some? {
      return;
    }
    StartFieldsZero(e);
    var flag := TypeFlagChar(e.typeflag);
    if flag.Err? {
      return Some(NotSupported);
    }
    var ok := FinishHeader(record, e, ucache, gcache, link, flag.value, fs);
    if !ok {
      return Some(LinkReadError);
    }
    HeaderOkIff(e, link);
    Assemble(e, link, ResolvedName(ucache.lookup, e.uid), ResolvedName(gcache.lookup, e.gid));
    PartsOf(e, link);
  }
}
