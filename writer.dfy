/** The archive writer: write_file, write_eof_mark and the write loop of
    gpgtar_create. The output stream is the sequence of 512-byte records
    written to it; a regular file's contents are the bytes es_fread yields
    from it. The data loop is modelled as the C code has it, including the
    reuse of one record buffer that is never cleared. */
module Writer {
  import opened Common
  import opened Entry
  import opened Layout
  import opened IdCache
  import opened Header
  import opened HeaderBuilder
  import opened Scanner

  /** What a writer leaves behind: the records written, and the error that
      stopped it, if any. */
  datatype Output = Output(records: seq<seq<byte>>, err: Option<Error>)

  /** Every record is a whole record. */
  predicate Whole(records: seq<seq<byte>>) {
    forall i :: 0 <= i < |records| ==> |records[i]| == RecordSize
  }

  /** hdr->nrecords: the number of records the contents of a regular file
      of the given size take. */
  function RecordCount(size: nat): nat {
    (size + RecordSize - 1) / RecordSize
  }

  /** es_fread (buffer, 1, n, fp) at file position pos: the bytes there, fewer
      than n at the end of the file. */
  function Read(data: seq<byte>, pos: nat, n: nat): (r: seq<byte>)
    ensures |r| <= n
    ensures pos <= |data| ==> (|r| == n <==> pos + n <= |data|)
    ensures pos + n <= |data| ==> r == data[pos..pos + n]
  {
    if pos >= |data| then [] else data[pos..Min(pos + n, |data|)]
  }

  // ---------------------------------------------------------------------
  // The data loop

  /** The records the loop `while (hdr->nrecords--)` writes when n records
      are left, buf holds the previous record and pos is the file position:
      each turn reads into the front of the buffer (512 bytes, or last
      bytes on the final turn), so that the buffer holds the bytes read
      followed by what it held past them, and writes the whole buffer; a
      short read, when the file holds fewer bytes than the turn asks for,
      stops it with ReadError. write_file passes size % 512 as last. */
  function DataRecords(buf: seq<byte>, data: seq<byte>, pos: nat, n: nat, last: nat): (o: Output)
    requires |buf| == RecordSize && last <= RecordSize
    ensures o.err.None? ==> |o.records| == n
    ensures o.err.Some? ==> o.err == Some(ReadError)
    decreases n
  {
    if n == 0 then Output([], None)
    else
      var nbytes := if n > 1 then RecordSize else last;
      if pos + nbytes > |data| then Output([], Some(ReadError))
      else
        var next := data[pos..pos + nbytes] + buf[nbytes..];
        var rest := DataRecords(next, data, pos + nbytes, n - 1, last);
        Output([next] + rest.records, rest.err)
  }

  /** The number of file bytes n turns of the loop read. */
  function Need(n: nat, last: nat): nat {
    if n == 0 then 0 else if n == 1 then last else RecordSize + Need(n - 1, last)
  }

  /** The loop succeeds exactly when the file holds the bytes it reads. */
  lemma {:induction false} DataRecordsOk(buf: seq<byte>, data: seq<byte>, pos: nat, n: nat, last: nat)
    requires |buf| == RecordSize && last <= RecordSize && pos <= |data|
    ensures DataRecords(buf, data, pos, n, last).err.None? <==> pos + Need(n, last) <= |data|
    decreases n
  {
    if n > 0 {
      var nbytes := if n > 1 then RecordSize else last;
      assert Need(n, last) == nbytes + Need(n - 1, last);
      if pos + nbytes <= |data| {
        DataRecordsOk(data[pos..pos + nbytes] + buf[nbytes..], data, pos + nbytes, n - 1, last);
      }
    }
  }

  /** Every record the loop writes is a whole record. */
  lemma {:induction false} DataRecordsWhole(buf: seq<byte>, data: seq<byte>, pos: nat, n: nat, last: nat)
    requires |buf| == RecordSize && last <= RecordSize
    ensures Whole(DataRecords(buf, data, pos, n, last).records)
    decreases n
  {
    if n > 0 {
      var nbytes := if n > 1 then RecordSize else last;
      if pos + nbytes <= |data| {
        DataRecordsWhole(data[pos..pos + nbytes] + buf[nbytes..], data, pos + nbytes, n - 1, last);
      }
    }
  }

  lemma FlattenCons(x: seq<byte>, rs: seq<seq<byte>>)
    ensures Flatten([x] + rs) == x + Flatten(rs)
  {
    FlattenAppend([x], rs);
    FlattenOne(x);
  }

  /** The records carry the bytes read, in order: the first Need(n, last)
      bytes of the records are the file's bytes from pos on. */
  lemma {:induction false} DataRecordsContent(buf: seq<byte>, data: seq<byte>, pos: nat, n: nat, last: nat)
    requires |buf| == RecordSize && last <= RecordSize
    requires pos + Need(n, last) <= |data|
    ensures var o := DataRecords(buf, data, pos, n, last);
      && |Flatten(o.records)| >= Need(n, last)
      && Flatten(o.records)[..Need(n, last)] == data[pos..pos + Need(n, last)]
    decreases n, 1
  {
    if n == 0 {
      assert DataRecords(buf, data, pos, n, last).records == [];
    } else if n == 1 {
      FinalContent(buf, data, pos, last);
    } else {
      FullContent(buf, data, pos, n, last);
    }
  }

  lemma FinalContent(buf: seq<byte>, data: seq<byte>, pos: nat, last: nat)
    requires |buf| == RecordSize && last <= RecordSize
    requires pos + last <= |data|
    ensures var o := DataRecords(buf, data, pos, 1, last);
      && |Flatten(o.records)| >= last
      && Flatten(o.records)[..last] == data[pos..pos + last]
  {
    var o := DataRecords(buf, data, pos, 1, last);
    var next := data[pos..pos + last] + buf[last..];
    assert DataRecords(next, data, pos + last, 0, last).records == [];
    assert o.records == [next] + [];
    FlattenCons(next, []);
    assert Flatten(o.records) == next;
    assert next[..last] == data[pos..pos + last];
  }

  lemma {:induction false} FullContent(buf: seq<byte>, data: seq<byte>, pos: nat, n: nat, last: nat)
    requires |buf| == RecordSize && last <= RecordSize && n > 1
    requires pos + Need(n, last) <= |data|
    ensures var o := DataRecords(buf, data, pos, n, last);
      && |Flatten(o.records)| >= Need(n, last)
      && Flatten(o.records)[..Need(n, last)] == data[pos..pos + Need(n, last)]
    decreases n, 0
  {
    var next := data[pos..pos + RecordSize];
    var f := Flatten(DataRecords(next, data, pos + RecordSize, n - 1, last).records);
    FullShape(buf, data, pos, n, last);
    DataRecordsContent(next, data, pos + RecordSize, n - 1, last);
    PrefixCons(next, f, data, pos, Need(n - 1, last), Need(n, last));
  }

  /** A turn before the last one writes the next 512 bytes of the file. */
  lemma FullShape(buf: seq<byte>, data: seq<byte>, pos: nat, n: nat, last: nat)
    requires |buf| == RecordSize && last <= RecordSize && n > 1
    requires pos + RecordSize <= |data|
    ensures var next := data[pos..pos + RecordSize];
      Flatten(DataRecords(buf, data, pos, n, last).records)
        == next + Flatten(DataRecords(next, data, pos + RecordSize, n - 1, last).records)
  {
    var next := data[pos..pos + RecordSize];
    assert next == data[pos..pos + RecordSize] + buf[RecordSize..];
    FlattenCons(next, DataRecords(next, data, pos + RecordSize, n - 1, last).records);
  }

  lemma PrefixCons(next: seq<byte>, f: seq<byte>, data: seq<byte>, pos: nat, m: nat, total: nat)
    requires total == RecordSize + m
    requires pos + total <= |data| && next == data[pos..pos + RecordSize]
    requires |f| >= m && f[..m] == data[pos + RecordSize..pos + RecordSize + m]
    ensures |next + f| >= total && (next + f)[..total] == data[pos..pos + total]
  {
    assert (next + f)[..RecordSize + m] == next + f[..m];
  }

  /** The stale padding: past the bytes read on the final turn, the last
      record still holds the previous record's bytes (the header's, when
      there is one data record). With last == 0 it is a copy of the
      previous record. */
  lemma {:induction false} LastRecordStale(buf: seq<byte>, data: seq<byte>, pos: nat, n: nat, last: nat)
    requires |buf| == RecordSize && last <= RecordSize && n > 0
    requires pos + Need(n, last) <= |data|
    ensures var o := DataRecords(buf, data, pos, n, last);
      && o.err.None? && |o.records| == n && Whole(o.records)
      && o.records[n - 1][last..] == (if n == 1 then buf else o.records[n - 2])[last..]
    decreases n
  {
    DataRecordsOk(buf, data, pos, n, last);
    DataRecordsWhole(buf, data, pos, n, last);
    if n > 1 {
      var next := data[pos..pos + RecordSize];
      assert next == data[pos..pos + RecordSize] + buf[RecordSize..];
      var rest := DataRecords(next, data, pos + RecordSize, n - 1, last).records;
      LastRecordStale(next, data, pos + RecordSize, n - 1, last);
      assert DataRecords(buf, data, pos, n, last).records == [next] + rest;
    }
  }

  /** The byte count of the final read that reads the rest of the file:
      the whole record when the size is a multiple of 512. */
  function IntendedLast(size: nat): (r: nat)
    ensures r <= RecordSize
  {
    if size % RecordSize == 0 then RecordSize else size % RecordSize
  }

  lemma {:induction false} NeedIntended(size: nat)
    ensures Need(RecordCount(size), IntendedLast(size)) == size
    decreases size
  {
    if size > RecordSize {
      NeedIntended(size - RecordSize);
      assert RecordCount(size) == RecordCount(size - RecordSize) + 1;
      assert IntendedLast(size) == IntendedLast(size - RecordSize);
    }
  }

  /** With the intended final read, the data records of a file hold exactly
      its size bytes, read back in order, and the loop fails exactly when
      the file is shorter than its size. */
  lemma IntendedRoundTrip(buf: seq<byte>, data: seq<byte>, size: nat)
    requires |buf| == RecordSize
    ensures var o := DataRecords(buf, data, 0, RecordCount(size), IntendedLast(size));
      && (o.err.None? <==> size <= |data|)
      && (o.err.None? ==>
            && |o.records| == RecordCount(size)
            && |Flatten(o.records)| >= size
            && Flatten(o.records)[..size] == data[..size])
  {
    NeedIntended(size);
    DataRecordsOk(buf, data, 0, RecordCount(size), IntendedLast(size));
    if size <= |data| {
      DataRecordsContent(buf, data, 0, RecordCount(size), IntendedLast(size));
    }
  }

  /** As written, the loop does just that whenever the size is not a
      positive multiple of 512. */
  lemma AsWrittenRoundTrip(buf: seq<byte>, data: seq<byte>, size: nat)
    requires |buf| == RecordSize
    requires size % RecordSize != 0 || size == 0
    ensures var o := DataRecords(buf, data, 0, RecordCount(size), size % RecordSize);
      && (o.err.None? <==> size <= |data|)
      && (o.err.None? ==>
            && |o.records| == RecordCount(size)
            && |Flatten(o.records)| >= size
            && Flatten(o.records)[..size] == data[..size])
  {
    IntendedRoundTrip(buf, data, size);
    if size == 0 {
      assert RecordCount(size) == 0;
    }
  }

  lemma {:induction false} NeedLast(n: nat, last: nat)
    requires n > 0
    ensures Need(n, last) == Need(n, 0) + last
    decreases n
  {
    if n > 1 {
      NeedLast(n - 1, last);
    }
  }

  /** As written, for a positive multiple of 512 the final turn reads no
      bytes: the last 512 bytes of the file are never read, the record
      before them is written again in their place, and a file that is up
      to 512 bytes short goes unnoticed. */
  lemma AsWrittenRepeats(buf: seq<byte>, data: seq<byte>, size: nat)
    requires |buf| == RecordSize && size > 0 && size % RecordSize == 0
    ensures var n := RecordCount(size);
      var o := DataRecords(buf, data, 0, n, size % RecordSize);
      && (o.err.None? <==> size - RecordSize <= |data|)
      && (o.err.None? ==>
            && |o.records| == n
            && |Flatten(o.records)| >= size - RecordSize
            && Flatten(o.records)[..size - RecordSize] == data[..size - RecordSize]
            && o.records[n - 1] == (if n == 1 then buf else o.records[n - 2]))
  {
    var n := RecordCount(size);
    NeedIntended(size);
    NeedLast(n, RecordSize);
    NeedLast(n, 0);
    DataRecordsOk(buf, data, 0, n, 0);
    if size - RecordSize <= |data| {
      DataRecordsContent(buf, data, 0, n, 0);
      LastRecordStale(buf, data, 0, n, 0);
      var o := DataRecords(buf, data, 0, n, 0);
      assert o.records[n - 1] == o.records[n - 1][0..];
      assert buf == buf[0..];
      if n > 1 {
        assert o.records[n - 2] == o.records[n - 2][0..];
      }
    }
  }

  /** The smallest case: a 512-byte file of spaces behind a zero buffer
      comes out as one zero record, not as its contents. */
  lemma WholeRecordLost()
    ensures var o := DataRecords(Zeros(RecordSize), Spaces(RecordSize), 0, RecordCount(RecordSize), RecordSize % RecordSize);
      && o.err.None? && o.records == [Zeros(RecordSize)]
      && Flatten(o.records) != Spaces(RecordSize)
  {
    AsWrittenRepeats(Zeros(RecordSize), Spaces(RecordSize), RecordSize);
    var o := DataRecords(Zeros(RecordSize), Spaces(RecordSize), 0, 1, 0);
    FlattenCons(Zeros(RecordSize), []);
    assert Flatten(o.records)[0] == 0;
  }

  // ---------------------------------------------------------------------
  // One entry

  /** What readlink reports for name. */
  function LinkOf(fs: FileSystem, name: Path): Option<seq<byte>> {
    if name in fs.links then Some(fs.links[name]) else None
  }

  /** What write_file writes once the header h of e is built: the header
      record alone, for a regular file that cannot be opened nothing, and
      otherwise the header followed by the file's data records. */
  function BodyOutput(h: seq<byte>, e: TarEntry, fs: FileSystem): Output
    requires |h| == RecordSize
  {
    if e.typeflag != Regular then Output([h], None)
    else if e.name !in fs.contents then Output([], Some(OpenError))
    else
      var d := DataRecords(h, fs.contents[e.name], 0, RecordCount(e.size), e.size % RecordSize);
      Output([h] + d.records, d.err)
  }

  /** A regular file's records after its header, as written: when the size
      is 0 or not a multiple of 512 they hold the file's first size bytes
      in order, and writing fails exactly when the file is shorter than the
      size lstat reported; for a positive multiple of 512 they hold only the
      first size - 512 bytes, the last record repeats the one before it
      (the header for a 512-byte file), and only a file more than 512
      bytes short fails. */
  lemma BodyContents(h: seq<byte>, e: TarEntry, fs: FileSystem)
    requires |h| == RecordSize && e.typeflag == Regular && e.name in fs.contents
    ensures var o := BodyOutput(h, e, fs);
      var data := fs.contents[e.name];
      var n := RecordCount(e.size);
      && o.records != [] && o.records[0] == h
      && (e.size % RecordSize != 0 || e.size == 0 ==>
            && (o.err.None? <==> e.size <= |data|)
            && (o.err.None? ==>
                  && |o.records| == 1 + n
                  && |Flatten(o.records[1..])| >= e.size
                  && Flatten(o.records[1..])[..e.size] == data[..e.size]))
      && (e.size % RecordSize == 0 && e.size > 0 ==>
            && (o.err.None? <==> e.size - RecordSize <= |data|)
            && (o.err.None? ==>
                  && |o.records| == 1 + n
                  && |Flatten(o.records[1..])| >= e.size - RecordSize
                  && Flatten(o.records[1..])[..e.size - RecordSize] == data[..e.size - RecordSize]
                  && o.records[n] == o.records[n - 1]))
  {
    var data := fs.contents[e.name];
    var d := DataRecords(h, data, 0, RecordCount(e.size), e.size % RecordSize);
    assert BodyOutput(h, e, fs).records[1..] == d.records;
    if e.size % RecordSize != 0 || e.size == 0 {
      AsWrittenRoundTrip(h, data, e.size);
    } else {
      AsWrittenRepeats(h, data, e.size);
    }
  }

  /** write_file for entry e whose owners are named uname and gname: an
      unsupported type writes nothing and is no error; any other header
      error is returned. */
  function FileOutput(e: TarEntry, uname: seq<byte>, gname: seq<byte>, fs: FileSystem): Output
    requires |uname| < 32 && |gname| < 32
  {
    match HeaderRecord(e, uname, gname, LinkOf(fs, e.name))
    case Err(err) => if err == NotSupported then Output([], None) else Output([], Some(err))
    case Ok(h) => BodyOutput(h, e, fs)
  }

  /** What write_file produces: whole records; nothing but the header for
      a supported type other than a regular file; for a regular file the
      header and one record per 512 bytes of its size; nothing at all for
      an unsupported type, which is not an error. */
  lemma FileOutputSpec(e: TarEntry, uname: seq<byte>, gname: seq<byte>, fs: FileSystem)
    requires |uname| < 32 && |gname| < 32
    ensures var o := FileOutput(e, uname, gname, fs);
      && Whole(o.records)
      && (o.records != [] ==> HeaderRecord(e, uname, gname, LinkOf(fs, e.name)) == Ok(o.records[0]))
      && (o.err.None? && e.typeflag != Regular && e.typeflag != NotSup ==> |o.records| == 1)
      && (o.err.None? && e.typeflag == Regular ==> |o.records| == 1 + RecordCount(e.size))
      && (SplitName(e.name).Ok? && NumbersFit(e) && e.typeflag == NotSup ==> o == Output([], None))
  {
    HeaderErrorOrder(e, LinkOf(fs, e.name));
    HeaderOkIff(e, LinkOf(fs, e.name));
    var h := HeaderRecord(e, uname, gname, LinkOf(fs, e.name));
    if h.Ok? {
      PartFieldsOk(HeaderParts(e, LinkOf(fs, e.name)).value, uname, gname);
      ChecksumVerifies(PartFields(HeaderParts(e, LinkOf(fs, e.name)).value, uname, gname));
      if e.typeflag == Regular && e.name in fs.contents {
        DataRecordsWhole(h.value, fs.contents[e.name], 0, RecordCount(e.size), e.size % RecordSize);
      }
    }
  }

  // ---------------------------------------------------------------------
  // The archive

  /** The user name the owner cache gives e. */
  function Uname(ulookup: nat -> Option<seq<byte>>, e: TarEntry): (r: seq<byte>)
    ensures |r| < 32
  {
    ResolvedName(ulookup, e.uid)
  }

  /** The group name the group cache gives e. */
  function Gname(glookup: nat -> Option<seq<byte>>, e: TarEntry): (r: seq<byte>)
    ensures |r| < 32
  {
    ResolvedName(glookup, e.gid)
  }

  /** What write_file would produce for each entry, on its own. */
  function FileOutputs(es: seq<TarEntry>, fs: FileSystem, ulookup: nat -> Option<seq<byte>>,
                       glookup: nat -> Option<seq<byte>>): (outs: seq<Output>)
    ensures |outs| == |es|
  {
    if es == [] then []
    else [FileOutput(es[0], Uname(ulookup, es[0]), Gname(glookup, es[0]), fs)] + FileOutputs(es[1..], fs, ulookup, glookup)
  }

  lemma {:induction false} FileOutputsAt(es: seq<TarEntry>, fs: FileSystem, ulookup: nat -> Option<seq<byte>>,
                                         glookup: nat -> Option<seq<byte>>, i: nat)
    requires i < |es|
    ensures FileOutputs(es, fs, ulookup, glookup)[i] == FileOutput(es[i], Uname(ulookup, es[i]), Gname(glookup, es[i]), fs)
    decreases i
  {
    if i > 0 {
      FileOutputsAt(es[1..], fs, ulookup, glookup, i - 1);
    }
  }

  /** The write loop over the outputs of successive write_file calls: each
      one's records in turn, stopping at the first error. */
  function Joined(outs: seq<Output>): Output {
    if outs == [] then Output([], None)
    else
      var before := Joined(outs[..|outs| - 1]);
      if before.err.Some? then before
      else Output(before.records + outs[|outs| - 1].records, outs[|outs| - 1].err)
  }

  /** The write loop of gpgtar_create over es. */
  function EntriesOutput(es: seq<TarEntry>, fs: FileSystem, ulookup: nat -> Option<seq<byte>>,
                         glookup: nat -> Option<seq<byte>>): Output
  {
    Joined(FileOutputs(es, fs, ulookup, glookup))
  }

  /** The archive: the entries' records and, when all went well, the two
      zero records of write_eof_mark. */
  function ArchiveOutput(es: seq<TarEntry>, fs: FileSystem, ulookup: nat -> Option<seq<byte>>,
                         glookup: nat -> Option<seq<byte>>): Output
  {
    var o := EntriesOutput(es, fs, ulookup, glookup);
    if o.err.Some? then o else Output(o.records + [Zeros(RecordSize), Zeros(RecordSize)], None)
  }

  /** Once an entry fails, nothing after it is written and its error is the
      result. */
  lemma {:induction false} StopsAtFirstError(outs: seq<Output>, more: seq<Output>)
    requires Joined(outs).err.Some?
    ensures Joined(outs + more) == Joined(outs)
    decreases |more|
  {
    if more != [] {
      var front := more[..|more| - 1];
      StopsAtFirstError(outs, front);
      assert (outs + more)[..|outs + more| - 1] == outs + front;
    } else {
      assert outs + more == outs;
    }
  }

  lemma JoinedStep(outs: seq<Output>, i: nat)
    requires i < |outs| && Joined(outs[..i]).err.None?
    ensures Joined(outs[..i + 1]) == Output(Joined(outs[..i]).records + outs[i].records, outs[i].err)
  {
    assert outs[..i + 1][..i] == outs[..i];
  }

  /** The loop's result: it succeeds exactly when every write_file does,
      and otherwise fails with the error of the first one that fails; when
      every write_file writes whole records, so does the loop. */
  lemma {:induction false} JoinedSpec(outs: seq<Output>)
    ensures Joined(outs).err.None? <==> forall i :: 0 <= i < |outs| ==> outs[i].err.None?
    ensures Joined(outs).err.Some? ==>
      exists i :: 0 <= i < |outs| && outs[i].err == Joined(outs).err
        && forall j :: 0 <= j < i ==> outs[j].err.None?
    ensures (forall i :: 0 <= i < |outs| ==> Whole(outs[i].records)) ==> Whole(Joined(outs).records)
    decreases |outs|
  {
    if outs != [] {
      var n := |outs| - 1;
      var front := outs[..n];
      JoinedSpec(front);
      assert forall i :: 0 <= i < n ==> front[i] == outs[i];
      var before := Joined(front);
      if before.err.Some? {
        var i :| 0 <= i < n && front[i].err == before.err && forall j :: 0 <= j < i ==> front[j].err.None?;
        assert outs[i].err == Joined(outs).err;
      } else {
        if outs[n].err.Some? {
          assert outs[n].err == Joined(outs).err;
        }
      }
    }
  }

  /** What the archive holds: whole records; when it is finished, every
      entry was written without error and the archive ends with the two
      zero records of the end-of-archive mark; otherwise it is what the
      write loop left when it stopped. */
  lemma ArchiveSpec(es: seq<TarEntry>, fs: FileSystem,
                    ulookup: nat -> Option<seq<byte>>, glookup: nat -> Option<seq<byte>>)
    ensures var o := ArchiveOutput(es, fs, ulookup, glookup);
      && Whole(o.records)
      && (o.err.None? <==>
            forall i :: 0 <= i < |es| ==> FileOutput(es[i], Uname(ulookup, es[i]), Gname(glookup, es[i]), fs).err.None?)
      && (o.err.None? ==> |o.records| >= 2 && o.records[|o.records| - 2..] == [Zeros(RecordSize), Zeros(RecordSize)])
      && (o.err.Some? ==> o == EntriesOutput(es, fs, ulookup, glookup))
  {
    var outs := FileOutputs(es, fs, ulookup, glookup);
    forall i | 0 <= i < |es|
      ensures outs[i] == FileOutput(es[i], Uname(ulookup, es[i]), Gname(glookup, es[i]), fs)
      ensures Whole(outs[i].records)
    {
      FileOutputsAt(es, fs, ulookup, glookup, i);
      FileOutputSpec(es[i], Uname(ulookup, es[i]), Gname(glookup, es[i]), fs);
    }
    JoinedSpec(outs);
    var j := Joined(outs);
    assert EntriesOutput(es, fs, ulookup, glookup) == j;
    if j.err.None? {
      var o := j.records + [Zeros(RecordSize), Zeros(RecordSize)];
      assert o[|o| - 2..] == [Zeros(RecordSize), Zeros(RecordSize)];
      assert Whole(o);
    }
  }

  // ---------------------------------------------------------------------
  // The writer as the C code runs it

  /** The output stream, as the records written to it. */
  class RecordStream {
    var records: seq<seq<byte>>

    constructor()
      ensures records == []
    {
      records := [];
    }

    /** write_record (stream, record). */
    method WriteRecord(record: array<byte>)
      modifies this
      ensures records == old(records) + [record[..]]
    {
      records := records + [record[..]];
    }
  }

  /** One turn of the data loop, given what the read returned: a read that
      comes up short ends the loop with a read error; otherwise the read
      bytes, copied over the buffer, are the next record. */
  lemma DataTurn(buf: seq<byte>, data: seq<byte>, pos: nat, n: nat, last: nat, got: seq<byte>)
    requires |buf| == RecordSize && last <= RecordSize && n > 0 && pos <= |data|
    requires got == Read(data, pos, if n > 1 then RecordSize else last)
    ensures var nbytes := if n > 1 then RecordSize else last;
      var o := DataRecords(buf, data, pos, n, last);
      && (|got| != nbytes ==> o == Output([], Some(ReadError)))
      && (|got| == nbytes ==>
            && pos + nbytes <= |data|
            && var next := Put(buf, 0, got);
               var rest := DataRecords(next, data, pos + nbytes, n - 1, last);
               o == Output([next] + rest.records, rest.err))
  {
    var nbytes := if n > 1 then RecordSize else last;
    if |got| == nbytes {
      assert buf[..0] == [];
      assert Put(buf, 0, got) == data[pos..pos + nbytes] + buf[nbytes..];
    }
  }

  /** The data part of write_file: `while (hdr->nrecords--)` reading into
      the record buffer and writing it, with the buffer still holding the
      header on the first turn. The final read takes size % 512 bytes, none
      when the size is a multiple of 512 (see AsWrittenRepeats). */
  method WriteData(out: RecordStream, record: array<byte>, data: seq<byte>, size: nat)
    returns (err: Option<Error>)
    requires record.Length == RecordSize
    modifies out, record
    ensures var o := DataRecords(old(record[..]), data, 0, RecordCount(size), size % RecordSize);
      out.records == old(out.records) + o.records && err == o.err
  {
    var last := size % RecordSize;
    ghost var all := DataRecords(record[..], data, 0, RecordCount(size), last);
    ghost var emitted: seq<seq<byte>> := [];
    var nrecords: nat := (size + RecordSize - 1) / RecordSize;
    var pos: nat := 0;
    while nrecords > 0
      invariant pos <= |data|
      invariant out.records == old(out.records) + emitted
      invariant var rest := DataRecords(record[..], data, pos, nrecords, last);
        all == Output(emitted + rest.records, rest.err)
    {
      ghost var before := record[..];
      ghost var prev := DataRecords(before, data, pos, nrecords, last);
      ghost var n0 := nrecords;
      nrecords := nrecords - 1;
      var nbytes := if nrecords != 0 then RecordSize else last;
      var got := Read(data, pos, nbytes);
      DataTurn(before, data, pos, n0, last, got);
      if |got| != nbytes {
        assert emitted + [] == emitted;
        return Some(ReadError);
      }
      Copy(record, 0, got);
      ghost var rest := DataRecords(record[..], data, pos + nbytes, nrecords, last);
      AppendAssoc(emitted, [record[..]], rest.records);
      AppendAssoc(old(out.records), emitted, [record[..]]);
      pos := pos + nbytes;
      out.WriteRecord(record);
      emitted := emitted + [record[..]];
    }
    err := None;
  }

  /** write_file (stream, hdr). */
  method WriteFile(out: RecordStream, e: TarEntry, ucache: NameCache, gcache: NameCache, fs: FileSystem)
    returns (err: Option<Error>)
    requires ucache != gcache && ucache.Valid() && gcache.Valid()
    modifies out, ucache, gcache
    ensures ucache.Valid() && gcache.Valid()
    ensures ReachesOwners(e) ==>
      ucache.initialized && ucache.lastId == e.uid && gcache.initialized && gcache.lastId == e.gid
    ensures !ReachesOwners(e) ==> unchanged(ucache, gcache)
    ensures var o := FileOutput(e, Uname(ucache.lookup, e), Gname(gcache.lookup, e), fs);
      out.records == old(out.records) + o.records && err == o.err
  {
    ghost var o := FileOutput(e, Uname(ucache.lookup, e), Gname(gcache.lookup, e), fs);
    ghost var h := HeaderRecord(e, Uname(ucache.lookup, e), Gname(gcache.lookup, e), LinkOf(fs, e.name));
    var record := new byte[RecordSize];
    err := BuildHeader(record, e, ucache, gcache, LinkOf(fs, e.name));
    assert out.records == old(out.records);
    if err.Some? {
      assert h == Err(err.value);
      if err.value == NotSupported {
        assert o == Output([], None);
        err := None;  // "skipping unsupported file"
      } else {
        assert o == Output([], err);
      }
      return;
    }
    assert h == Ok(record[..]);
    assert o == BodyOutput(record[..], e, fs);
    err := WriteBody(out, record, e, fs);
  }

  /** The rest of write_file once the header is in the record buffer: open
      a regular file, write the header, then the file's data. */
  method WriteBody(out: RecordStream, record: array<byte>, e: TarEntry, fs: FileSystem)
    returns (err: Option<Error>)
    requires record.Length == RecordSize
    modifies out, record
    ensures var o := BodyOutput(old(record[..]), e, fs);
      out.records == old(out.records) + o.records && err == o.err
  {
    var data: seq<byte> := [];
    if e.typeflag == Regular {
      if e.name !in fs.contents {
        return Some(OpenError);
      }
      data := fs.contents[e.name];
    }
    out.WriteRecord(record);
    if e.typeflag == Regular {
      err := WriteData(out, record, data, e.size);
    } else {
      err := None;
    }
  }

  /** write_eof_mark (stream): two zero records. */
  method WriteEofMark(out: RecordStream)
    modifies out
    ensures out.records == old(out.records) + [Zeros(RecordSize), Zeros(RecordSize)]
  {
    var record := new byte[RecordSize](_ => 0);
    assert record[..] == Zeros(RecordSize);
    out.WriteRecord(record);
    out.WriteRecord(record);
  }

  /** The write loop of gpgtar_create: write_file for each entry in turn,
      leaving the loop at the first error; outs are the outputs of those
      write_file calls. */
  method WriteEntries(out: RecordStream, es: seq<TarEntry>, ucache: NameCache, gcache: NameCache, fs: FileSystem,
                      ghost outs: seq<Output>)
    returns (err: Option<Error>)
    requires ucache != gcache && ucache.Valid() && gcache.Valid()
    requires |outs| == |es|
    requires forall i :: 0 <= i < |es| ==>
      outs[i] == FileOutput(es[i], Uname(ucache.lookup, es[i]), Gname(gcache.lookup, es[i]), fs)
    modifies out, ucache, gcache
    ensures out.records == old(out.records) + Joined(outs).records && err == Joined(outs).err
  {
    ghost var base := out.records;
    SplitAt(outs, 0);
    var i := 0;
    while i < |es|
      invariant i <= |es| && ucache.Valid() && gcache.Valid()
      invariant Joined(outs[..i]).err.None?
      invariant out.records == base + Joined(outs[..i]).records
    {
      JoinedStep(outs, i);
      ghost var before := Joined(outs[..i]).records;
      err := WriteFile(out, es[i], ucache, gcache, fs);
      AppendAssoc(base, before, outs[i].records);
      if err.Some? {
        StopsAtFirstError(outs[..i + 1], outs[i + 1..]);
        SplitAt(outs, i + 1);
        return;
      }
      i := i + 1;
    }
    SplitAt(outs, i);
    err := None;
  }

  /** gpgtar_create's writing: the entries, then, when all of them were
      written, the end-of-archive mark. */
  method WriteArchive(out: RecordStream, es: seq<TarEntry>, ucache: NameCache, gcache: NameCache, fs: FileSystem)
    returns (err: Option<Error>)
    requires ucache != gcache && ucache.Valid() && gcache.Valid()
    modifies out, ucache, gcache
    ensures var o := ArchiveOutput(es, fs, ucache.lookup, gcache.lookup);
      out.records == old(out.records) + o.records && err == o.err
  {
    ghost var outs := FileOutputs(es, fs, ucache.lookup, gcache.lookup);
    forall i | 0 <= i < |es|
      ensures outs[i] == FileOutput(es[i], Uname(ucache.lookup, es[i]), Gname(gcache.lookup, es[i]), fs)
    {
      FileOutputsAt(es, fs, ucache.lookup, gcache.lookup, i);
    }
    err := WriteEntries(out, es, ucache, gcache, fs, outs);
    if err.None? {
      WriteEofMark(out);
    }
  }

  /** gpgtar_create (inpattern) without the output file's opening and
      closing: the scan of the patterns, then the archive of the entries
      found, written to a fresh stream with fresh owner caches. */
  method Create(patterns: seq<Path>, fs: FileSystem, platform: Platform,
                ulookup: nat -> Option<seq<byte>>, glookup: nat -> Option<seq<byte>>)
    returns (records: seq<seq<byte>>, err: Option<Error>)
    ensures var o := ArchiveOutput(Collect(fs, patterns, 0, platform), fs, ulookup, glookup);
      records == o.records && err == o.err
    ensures Whole(records)
  {
    var scan := new ScanCtrl(fs, platform);
    scan.AddPatterns(patterns);
    var entries := scan.flist;
    assert entries == Collect(fs, patterns, 0, platform);
    var out := new RecordStream();
    var ucache := new NameCache(ulookup);
    var gcache := new NameCache(glookup);
    err := WriteArchive(out, entries, ucache, gcache, fs);
    records := out.records;
    ArchiveSpec(entries, fs, ulookup, glookup);
  }
}
