/** The layout of struct ustar_raw_header: seventeen fixed-width fields that
    together fill one 512-byte record. A record is modelled as the sequence
    of its fields; Flatten gives its bytes. */
module Layout {
  import opened Common

  // Field indices, in record order.
  const NameF: nat := 0
  const ModeF: nat := 1
  const UidF: nat := 2
  const GidF: nat := 3
  const SizeF: nat := 4
  const MtimeF: nat := 5
  const ChecksumF: nat := 6
  const TypeflagF: nat := 7
  const LinknameF: nat := 8
  const MagicF: nat := 9
  const VersionF: nat := 10
  const UnameF: nat := 11
  const GnameF: nat := 12
  const DevmajorF: nat := 13
  const DevminorF: nat := 14
  const PrefixF: nat := 15
  const PadF: nat := 16

  const FieldCount: nat := 17

  /** The field widths of the POSIX ustar header. */
  function Width(k: nat): nat
    requires k < FieldCount
  {
    match k
    case 0 => 100   // name
    case 1 => 8     // mode
    case 2 => 8     // uid
    case 3 => 8     // gid
    case 4 => 12    // size
    case 5 => 12    // mtime
    case 6 => 8     // checksum
    case 7 => 1     // typeflag
    case 8 => 100   // linkname
    case 9 => 6     // magic
    case 10 => 2    // version
    case 11 => 32   // uname
    case 12 => 32   // gname
    case 13 => 8    // devmajor
    case 14 => 8    // devminor
    case 15 => 155  // prefix
    case _ => 12    // pad
  }

  /** Where each field starts; Offset(FieldCount) is the record size. */
  function Offset(k: nat): nat
    requires k <= FieldCount
  {
    match k
    case 0 => 0
    case 1 => 100
    case 2 => 108
    case 3 => 116
    case 4 => 124
    case 5 => 136
    case 6 => 148
    case 7 => 156
    case 8 => 157
    case 9 => 257
    case 10 => 263
    case 11 => 265
    case 12 => 297
    case 13 => 329
    case 14 => 337
    case 15 => 345
    case 16 => 500
    case _ => 512
  }

  /** Each field starts where the previous one ends, and the fields fill
      exactly one record. */
  lemma OffsetsAdd()
    ensures Offset(0) == 0 && Offset(FieldCount) == RecordSize
    ensures forall k :: 0 <= k < FieldCount ==> Offset(k + 1) == Offset(k) + Width(k)
  {
  }

  /** A record given field by field, each of its width. */
  predicate FieldsOk(fs: seq<seq<byte>>) {
    |fs| == FieldCount && forall k :: 0 <= k < FieldCount ==> |fs[k]| == Width(k)
  }

  /** The bytes of a sequence of fields laid end to end. */
  function Flatten(fs: seq<seq<byte>>): seq<byte> {
    if fs == [] then [] else Flatten(fs[..|fs| - 1]) + fs[|fs| - 1]
  }

  lemma {:induction false} FlattenAppend(a: seq<seq<byte>>, b: seq<seq<byte>>)
    ensures Flatten(a + b) == Flatten(a) + Flatten(b)
    decreases |b|
  {
    if b != [] {
      var c := b[..|b| - 1];
      assert (a + b)[..|a + b| - 1] == a + c;
      FlattenAppend(a, c);
    } else {
      assert a + b == a;
    }
  }

  lemma {:induction false} FlattenPrefixLength(fs: seq<seq<byte>>, k: nat)
    requires FieldsOk(fs) && k <= FieldCount
    ensures |Flatten(fs[..k])| == Offset(k)
    decreases k
  {
    OffsetsAdd();
    if k > 0 {
      FlattenPrefixLength(fs, k - 1);
      assert fs[..k][..k - 1] == fs[..k - 1];
    }
  }

  /** A well-formed record is 512 bytes. */
  lemma FlattenLength(fs: seq<seq<byte>>)
    requires FieldsOk(fs)
    ensures |Flatten(fs)| == RecordSize
  {
    FlattenPrefixLength(fs, FieldCount);
    assert fs[..FieldCount] == fs;
  }

  lemma FlattenOne(x: seq<byte>)
    ensures Flatten([x]) == x
  {
    var one: seq<seq<byte>> := [x];
    assert one[..0] == [];
  }

  lemma FlattenSplit(fs: seq<seq<byte>>, k: nat)
    requires k < |fs|
    ensures Flatten(fs) == Flatten(fs[..k]) + fs[k] + Flatten(fs[k + 1..])
  {
    var a, one, c := fs[..k], [fs[k]], fs[k + 1..];
    Around(fs, k);
    FlattenAppend(a + one, c);
    FlattenAppend(a, one);
    FlattenOne(fs[k]);
  }

  /** Field k of the record occupies bytes [Offset(k), Offset(k + 1)). */
  lemma FieldAt(fs: seq<seq<byte>>, k: nat)
    requires FieldsOk(fs) && k < FieldCount
    ensures |Flatten(fs)| == RecordSize
    ensures Flatten(fs)[Offset(k)..Offset(k + 1)] == fs[k]
  {
    OffsetsAdd();
    FlattenLength(fs);
    FlattenSplit(fs, k);
    FlattenPrefixLength(fs, k);
  }

  lemma PutMiddle(a: seq<byte>, b: seq<byte>, c: seq<byte>, j: nat, x: seq<byte>)
    requires j + |x| <= |b|
    ensures Put(a + b + c, |a| + j, x) == a + Put(b, j, x) + c
  {
  }

  /** Writing bytes inside field k of the record is writing them into that
      field: the memcpy into raw->field seen on the field sequence. */
  lemma PutField(fs: seq<seq<byte>>, k: nat, j: nat, x: seq<byte>)
    requires FieldsOk(fs) && k < FieldCount && j + |x| <= Width(k)
    ensures |Flatten(fs)| == RecordSize
    ensures FieldsOk(fs[k := Put(fs[k], j, x)])
    ensures Put(Flatten(fs), Offset(k) + j, x) == Flatten(fs[k := Put(fs[k], j, x)])
  {
    var gs := fs[k := Put(fs[k], j, x)];
    FlattenLength(fs);
    FlattenSplit(fs, k);
    FlattenSplit(gs, k);
    FlattenPrefixLength(fs, k);
    assert gs[..k] == fs[..k] && gs[k + 1..] == fs[k + 1..];
    PutMiddle(Flatten(fs[..k]), fs[k], Flatten(fs[k + 1..]), j, x);
  }

  /** The record memset to zero, field by field. */
  function ZeroFields(): (fs: seq<seq<byte>>)
    ensures FieldsOk(fs)
  {
    seq(FieldCount, k requires 0 <= k < FieldCount => Zeros(Width(k)))
  }

  lemma {:induction false} FlattenZeros(fs: seq<seq<byte>>)
    requires forall k :: 0 <= k < |fs| ==> fs[k] == Zeros(|fs[k]|)
    ensures Flatten(fs) == Zeros(|Flatten(fs)|)
    decreases |fs|
  {
    if fs != [] {
      FlattenZeros(fs[..|fs| - 1]);
    }
  }

  /** memset (record, 0, RECORDSIZE) leaves every field zero. */
  lemma ZeroRecord()
    ensures Flatten(ZeroFields()) == Zeros(RecordSize)
  {
    FlattenZeros(ZeroFields());
    FlattenLength(ZeroFields());
  }
}
