# USTAR archive writer of gpgtar

This project models the archive writer of GnuPG's `gpgtar` (`tools/gpgtar-create.c`) in Dafny.
The writer turns a list of path patterns into a tar archive in the POSIX.1 "ustar Interchange Format"
(the pax utility description of IEEE Std 1003.1). It uses the GNU tar base-256 extension for numbers
that do not fit in octal.

The model has nine modules, following the pieces of the C file:

- `Common` (`common.dfy`): bytes, error codes, `Result`/`Option`, and the build configuration.
  It also holds `Put`, the value of a buffer after a `memcpy`, and the `Copy` method that performs one.
- `NumericField` (`numeric.dfy`): `store_xoctal`.
  - `EncodeNumeric` is the field as a value: octal digits and a NUL, or base 256 with the top bit set.
  - `StoreXOctal` fills the array backwards, with the C code's loops.
  - `DecodeNumeric` reads a field back, so the encoding is proved to round-trip.
- `Entry` (`entry.dfy`): the mapping part of `fillup_entry`, from an abstract `struct stat` to a tar entry.
- `Layout` (`layout.dfy`): `struct ustar_raw_header` as a sequence of 17 fields with the POSIX widths.
  `Flatten` gives the 512 record bytes.
- `IdCache` (`idcache.dfy`): the single-slot caches of `store_uname` and `store_gname`.
  They form a class whose lookup function is a constructor argument.
- `Header` and `HeaderBuilder` (`header.dfy`, `builder.dfy`): `build_header`.
  - `HeaderRecord` is the record as a value.
  - `BuildHeader` is the method that zeroes the record and writes its fields in place, in the C code's order.
- `Scanner` (`scanner.dfy`): `pattern_valid_p`, `add_entry`, `scan_directory`, `scan_recursive` and the pattern loop.
  - The scan runs over an abstract file system: lstat results, directory listings, link targets and file contents.
  - It appends to a `seq` that replaces the `flist_tail` list.
  - It is proved to produce the recursive `Collect`/`Expand` order.
- `Writer` (`writer.dfy`): `write_file`, `write_eof_mark`, the write loop of `gpgtar_create`, and `Create`.
  - The output is a sequence of 512-byte records.
  - The reused record buffer is modelled as written, so a short final read leaves stale bytes after the file's data.
  - The final read takes `size % 512` bytes, as the code does. So a file whose size is a positive
    multiple of 512 loses its last 512 bytes (see Findings).
  - `DataRecords` takes the final read's byte count as a parameter. With `size % 512` it is the code as written;
    with `IntendedLast` it is the corrected loop.

Two behaviours of the data loop are worth stating up front:

- **Padding of the final data record.** The code never clears the record buffer, so after a short final
  read the rest of the record holds the previous record's bytes (the header's bytes for a file shorter
  than 512 bytes). `Writer.LastRecordStale` states this.
- **Files that changed size.** A file that grew is only noticed by a one-byte read after the loop, which only logs.
  A file that shrank fails with a read error, except that a size that is a positive multiple of 512
  tolerates up to 512 missing bytes (`Writer.BodyContents`).

## Model

| member | source | states |
|---|---|---|
| NumericField.EncodeNumeric | tools/gpgtar-create.c:283-334 | a successful encoding fills exactly the field's length |
| NumericField.OctalPath | tools/gpgtar-create.c:292-309 | a value below 8^(length-1) is stored as length-1 octal digits, left-padded with '0' and followed by NUL; the digits read back as the value; 0 gives all '0' digits |
| NumericField.BinaryPath | tools/gpgtar-create.c:310-330 | a value too large for octal but below 2^(8*length-1) is stored big-endian in base 256 with bit 0x80 of the first byte set; clearing that bit, the bytes read back as the value |
| NumericField.EncodeFailsIff | tools/gpgtar-create.c:310-333 | store_xoctal reaches BUG exactly when the value is at least the binary limit |
| NumericField.BinaryLimitIsPowerOfTwo | tools/gpgtar-create.c:315-329 | the binary limit is 2^(8*length-1): one bit of the field is taken by the flag |
| NumericField.OctalBelowBinary | tools/gpgtar-create.c:303-310 | the octal range lies strictly inside the binary range, and the binary range is below 256^length |
| NumericField.RoundTrip | tools/gpgtar-create.c:283-334 | decoding any field store_xoctal writes gives back the value |
| NumericField.EncodeSteps | tools/gpgtar-create.c:292-333 | the encoding is the octal digits when the octal loop ends with v == 0; otherwise it is the base-256 digits, flagged, when the binary loop ends with v == 0 and the first byte is below 0x80; otherwise it fails |
| NumericField.DigitLoop | tools/gpgtar-create.c:297-303 | the do-while loop writes the low digits backwards and leaves v as the value shifted by the digits written; it ends on v == 0 or when the field is full |
| NumericField.PadDigits | tools/gpgtar-create.c:305-308 | the padding loop writes the remaining leading zero digits |
| NumericField.StoreDigits | tools/gpgtar-create.c:297-308 | digit loop and padding together leave the value's digits in the field, and return what did not fit |
| NumericField.StoreXOctal | tools/gpgtar-create.c:283-334 | the method succeeds iff EncodeNumeric does, writes exactly that encoding at the field's offset, and leaves every other byte unchanged |
| Entry.KindFlag | tools/gpgtar-create.c:75-88 | lstat's type becomes a type flag, never a hardlink, and NOTSUP exactly for kinds none of the macros names |
| Entry.KindRoundTrip | tools/gpgtar-create.c:75-88 | the type flag determines the file kind back for every kind the macros name |
| Entry.PermissionBitsCopied | tools/gpgtar-create.c:92-110 | the nine permission tests copy exactly the bits 0777 of st_mode |
| Entry.SpecialBitsSpec | tools/gpgtar-create.c:111-122 | 04000, 02000 and 01000 are set exactly when the platform defines S_IXUID, S_IXGID or S_ISVTX and st_mode has that bit; no other bit is set |
| Entry.ModeBitsSpec | tools/gpgtar-create.c:92-122 | the mode is the permission bits of st_mode plus the three special bits, and nothing above 07777 |
| Entry.ModeFits | tools/gpgtar-create.c:92-122 | the mode is below 4096 |
| Entry.FillupEntry | tools/gpgtar-create.c:60-137 | the entry keeps the name it was given |
| Entry.FillupSpec | tools/gpgtar-create.c:75-133 | type from the kind (NOTSUP iff unknown), uid, gid, nlink and mtime copied, size set only for a regular file (0 otherwise), mode as ModeBits |
| Layout.ZeroRecord | tools/gpgtar-create.c:396 | the memset record is the header whose every field is zero |
| IdCache.Mem2Str | tools/gpgtar-create.c:351 | the copy is shorter than the buffer and holds no NUL |
| IdCache.Mem2StrTwice | tools/gpgtar-create.c:351-358 | copying the cached name again with the same size changes nothing |
| IdCache.Mem2StrPrefix | tools/gpgtar-create.c:351 | the copy is a prefix of the source string, and all of it when it fits |
| IdCache.ResolvedName | tools/gpgtar-create.c:344-358 | the name stored for an id fits the 32-byte field with its NUL and holds no NUL |
| IdCache.NameCache.constructor | tools/gpgtar-create.c:340-342 | the static slot starts uninitialized |
| IdCache.NameCache.Store | tools/gpgtar-create.c:337-359 | the field receives the cached name for id and a NUL; the slot then holds id; the lookup is called only when the slot was empty or held another id |
| IdCache.StoredName | tools/gpgtar-create.c:358 | copying the cached name into a 32-byte field copies it whole |
| Header.SlashScan | tools/gpgtar-create.c:404-407 | the backward scan stops at or below its start |
| Header.SlashScanSpec | tools/gpgtar-create.c:404-407 | the scan stops at a slash when it stops above 0, and no slash lies between that index and the start |
| Header.SplitName | tools/gpgtar-create.c:398-422 | a successful split gives a prefix below 155 and a name below 100 bytes |
| Header.SplitNameSpec | tools/gpgtar-create.c:398-422 | a name below 100 bytes is kept whole with an empty prefix; a longer one splits iff a slash at 0 < n < min(len,155) leaves fewer than 100 bytes after it, at the rightmost such slash, so that prefix + "/" + name is the original; otherwise TooLarge |
| Header.NameRoundTrip | tools/gpgtar-create.c:398-422 | a reader that joins the prefix and name fields with a slash gets the original name back |
| Header.TypeFlagRoundTrip | tools/gpgtar-create.c:430-440 | every type but NOTSUP gets a flag character '0'..'6' that identifies it, and NOTSUP is refused as NotSupported |
| Header.LinkField | tools/gpgtar-create.c:449-462 | the linkname field is 100 bytes |
| Header.SumBound | tools/gpgtar-create.c:467-470 | the sum of the bytes is at most 255 per byte |
| Header.ChecksumStore | tools/gpgtar-create.c:465-472 | every sum of a record takes the octal path in 7 bytes, and the field ends up as six digits, NUL and space |
| Header.HeaderParts | tools/gpgtar-create.c:396-462 | every part the header needs fits its field |
| Header.PartFieldsOk | tools/gpgtar-create.c:396-466 | the fields have their ustar widths, and the checksum field holds spaces while the sum is taken |
| Header.HeaderRecord | tools/gpgtar-create.c:387-475 | a built header is one record |
| Header.NumbersIff | tools/gpgtar-create.c:424-428 | the five numbers fit exactly when the five store_xoctal calls succeed |
| Header.HeaderOkIff | tools/gpgtar-create.c:387-475 | a header is built iff the name splits, the numbers fit, the type is supported and, for a symlink, readlink succeeds |
| Header.HeaderErrorOrder | tools/gpgtar-create.c:398-460 | the errors come in the code's order: TooLarge, then BUG, then NotSupported, then the readlink error |
| Header.NumbersBug | tools/gpgtar-create.c:424-428 | a number that does not fit aborts before the type is looked at |
| Header.ChecksumVerifies | tools/gpgtar-create.c:465-472 | the checksum field decodes to the sum of the record with that field read as eight spaces, and ends with NUL and space |
| Header.ChecksummedField | tools/gpgtar-create.c:465-472 | storing the checksum leaves every other field unchanged |
| Header.PartsOf | tools/gpgtar-create.c:398-462 | the parts of a header are the split name, the five encodings, the flag and the link field |
| Header.PartsLaidOut | tools/gpgtar-create.c:396-472 | every field sits at its ustar offset: name, numbers, type flag at 156, linkname, "ustar\0", "00", uname, gname, zero device numbers, prefix, zero padding |
| Header.ReadBackNumbers | tools/gpgtar-create.c:424-440 | mode, uid, gid, size and mtime decode from their fields, and the type flag reads back as the entry's type |
| Header.ReadBackStrings | tools/gpgtar-create.c:398-462 | name and prefix join to the name; uname and gname read back; the link target reads back cut to 99 bytes; a non-symlink's linkname is zero; magic and version are present |
| HeaderBuilder.CopyField | tools/gpgtar-create.c:401 | a memcpy into a zeroed field leaves the value padded with zeros, and the record still matches its fields |
| HeaderBuilder.CopyString | tools/gpgtar-create.c:412-413 | a string and its NUL copied into a zeroed field leave the padded string |
| HeaderBuilder.StoreField | tools/gpgtar-create.c:424 | store_xoctal into one field succeeds iff the value encodes, and the field then holds its encoding |
| HeaderBuilder.StorePair | tools/gpgtar-create.c:425-426 | two store_xoctal calls succeed iff both values encode, and leave both encodings |
| HeaderBuilder.StoreNumbers | tools/gpgtar-create.c:424-428 | the five store_xoctal calls succeed iff all five values encode, and leave the five encodings |
| HeaderBuilder.StoreName | tools/gpgtar-create.c:398-422 | the name part succeeds iff SplitName does, and leaves the padded name and prefix fields |
| HeaderBuilder.RecordSum | tools/gpgtar-create.c:467-470 | the loop computes the sum of the record's bytes |
| HeaderBuilder.StoreOwners | tools/gpgtar-create.c:446-447 | the uname and gname fields receive the resolved names of uid and gid, and the caches then hold uid and gid |
| HeaderBuilder.StoreMarkers | tools/gpgtar-create.c:430-444 | the type flag, magic and version fields receive their values |
| HeaderBuilder.StoreLink | tools/gpgtar-create.c:449-462 | a symlink's target, cut to 99 bytes, and a NUL go to the linkname field; a readlink failure is reported; other types leave it zero |
| HeaderBuilder.StoreChecksum | tools/gpgtar-create.c:465-472 | the record ends up checksummed over its fields with the checksum field as spaces |
| HeaderBuilder.WriteChecksum | tools/gpgtar-create.c:471-472 | store_xoctal of the sum into 7 bytes, then a space, leave the checksum field |
| HeaderBuilder.LinkAndChecksum | tools/gpgtar-create.c:449-472 | the link step succeeds iff LinkField does, and the record is then checksummed |
| HeaderBuilder.StartFieldsZero | tools/gpgtar-create.c:396-428 | after the name and the numbers, the fields the second half writes are still zero |
| HeaderBuilder.FinishHeader | tools/gpgtar-create.c:442-472 | markers, owner names, link and checksum in the code's order; fails only on readlink; the caches hold the entry's uid and gid |
| HeaderBuilder.Assemble | tools/gpgtar-create.c:396-472 | the fields written one by one are the fields of HeaderRecord |
| HeaderBuilder.StartHeader | tools/gpgtar-create.c:396-428 | memset, name and numbers: TooLarge when the name does not split, BUG when a number does not fit, otherwise the record holds those fields |
| HeaderBuilder.BuildHeader | tools/gpgtar-create.c:387-475 | on success the record is exactly HeaderRecord of the entry with the cached owner names; on failure the error is HeaderRecord's error; when the header gets past the type switch the caches hold the entry's uid and gid, otherwise they are unchanged |
| Scanner.Unified | tools/gpgtar-create.c:173-177 | every backslash of the name becomes a slash, and nothing else changes |
| Scanner.Dosify | tools/gpgtar-create.c:173-177 | the rewrite keeps the length |
| Scanner.DosifyAppend | tools/gpgtar-create.c:173-177 | the rewrite works byte by byte, so it distributes over concatenation |
| Scanner.DosifyTwice | tools/gpgtar-create.c:173-177 | the rewrite is idempotent |
| Scanner.DosifyFirst | tools/gpgtar-create.c:173-177 | a valid pattern's first byte does not become a slash, so entries stay relative |
| Scanner.RootPath | tools/gpgtar-create.c:168-172 | a pattern's own entry drops at most one trailing slash |
| Scanner.ChildPathSpec | tools/gpgtar-create.c:161-167 | a child's name is the directory name, without a trailing slash, then one slash, then the child name |
| Scanner.NewEntry | tools/gpgtar-create.c:178-187 | add_entry appends at most one entry; none when lstat fails |
| Scanner.Listed | tools/gpgtar-create.c:214-222 | a listing adds at most one entry per directory entry |
| Scanner.ListedSpec | tools/gpgtar-create.c:214-222 | every listed entry is the classification of its lstat result, and lies under the directory |
| Scanner.ScanDirSpec | tools/gpgtar-create.c:193-227 | scan_directory adds classified entries under the directory, at most one per listing entry, and none for an empty name or an unreadable directory |
| Scanner.ExpandSpec | tools/gpgtar-create.c:230-258 | the recursive scan adds only classified entries under the directory |
| Scanner.ExpandEachSpec | tools/gpgtar-create.c:247-254 | recursing into each directory of a listing stays under the listed directory |
| Scanner.PatternEntriesSpec | tools/gpgtar-create.c:580-593 | a pattern contributes entries only when pattern_valid_p accepts it; its first entry is the pattern itself, trailing slash removed, and the rest lie under it; all names are relative |
| Scanner.CollectSpec | tools/gpgtar-create.c:580-593 | the whole list is classified and every name is relative |
| Scanner.RewriteSeparators | tools/gpgtar-create.c:173-177 | the loop rewrites the name as Dosify does |
| Scanner.ListedStep | tools/gpgtar-create.c:214-222 | one more listing entry adds its entry unless it is "." or ".." |
| Scanner.ExpandEachStep | tools/gpgtar-create.c:247-254 | one more member adds its expansion when it is a directory |
| Scanner.ExpandUnfold | tools/gpgtar-create.c:236-254 | below the depth cap, a directory expands to its listing followed by the expansion of each listed directory in order |
| Scanner.CollectStep | tools/gpgtar-create.c:580-593 | one more pattern appends that pattern's entries |
| Scanner.ScanCtrl.constructor | tools/gpgtar-create.c:577-578 | the list starts empty at nesting level 0 |
| Scanner.ScanCtrl.AddEntry | tools/gpgtar-create.c:141-189 | add_entry appends the entry for the joined name, or for the pattern itself, and nothing else |
| Scanner.ScanCtrl.ScanDirectory | tools/gpgtar-create.c:193-227 | scan_directory appends exactly ScanDir in directory order |
| Scanner.ScanCtrl.ScanRecursive | tools/gpgtar-create.c:230-258 | scan_recursive appends exactly Expand at the current level and restores the level |
| Scanner.ScanCtrl.ScanMembers | tools/gpgtar-create.c:247-254 | the walk over the new entries appends the expansion of each directory in order |
| Scanner.ScanCtrl.ScanMember | tools/gpgtar-create.c:249-253 | a directory entry is expanded; any other entry adds nothing |
| Scanner.ScanCtrl.AddPattern | tools/gpgtar-create.c:582-592 | one pattern appends exactly PatternEntries |
| Scanner.ScanCtrl.AddPatterns | tools/gpgtar-create.c:580-593 | the pattern loop appends exactly Collect of the patterns |
| Writer.Read | tools/gpgtar-create.c:523 | es_fread returns at most n bytes; all n exactly when they are there, and then the next n bytes of the file |
| Writer.DataRecords | tools/gpgtar-create.c:515-539 | the loop writes one record per iteration, or stops with a read error |
| Writer.DataRecordsOk | tools/gpgtar-create.c:520-531 | the loop fails iff the file holds fewer bytes than its reads ask for |
| Writer.DataTurn | tools/gpgtar-create.c:520-535 | one turn: a short read ends the loop with a read error; a full read copied over the buffer is the next record |
| Writer.DataRecordsWhole | tools/gpgtar-create.c:520-535 | every data record is 512 bytes |
| Writer.DataRecordsContent | tools/gpgtar-create.c:515-539 | the records carry, in order, exactly the bytes the loop asks for |
| Writer.FinalContent | tools/gpgtar-create.c:522-523 | the final record begins with the final read's bytes |
| Writer.FullContent | tools/gpgtar-create.c:520-535 | a full record followed by the rest carries the bytes in order |
| Writer.LastRecordStale | tools/gpgtar-create.c:482-533 | after a short final read, the rest of the last record is the previous record's bytes, or the header's when there is one data record |
| Writer.NeedIntended | tools/gpgtar-create.c:518-522 | with the final read as intended, the reads ask for exactly size bytes |
| Writer.IntendedRoundTrip | tools/gpgtar-create.c:515-539 | with the final read as intended, the data records succeed iff the file has size bytes, number ceil(size/512), and begin with the file's first size bytes |
| Writer.AsWrittenRoundTrip | tools/gpgtar-create.c:515-539 | as written, the same holds when size is 0 or not a multiple of 512 |
| Writer.AsWrittenRepeats | tools/gpgtar-create.c:515-539 | as written, for a size that is a positive multiple of 512 the loop fails iff the file is more than 512 bytes short; the records carry only the first size - 512 bytes, and the last record is a copy of the previous one, or of the buffer it started from |
| Writer.WholeRecordLost | tools/gpgtar-create.c:522 | a 512-byte file of spaces behind a zeroed buffer is written as the stale buffer (zeros here), not as its own bytes |
| Writer.FileOutputSpec | tools/gpgtar-create.c:478-549 | the first record is the entry's header; a non-regular entry adds nothing; a regular file adds ceil(size/512) records; an unsupported type writes nothing and is no error |
| Writer.BodyContents | tools/gpgtar-create.c:498-539 | after a regular file's header come ceil(size/512) records; for size 0 or not a multiple of 512 they hold the file's first size bytes and writing fails iff the file is shorter than size; for a positive multiple of 512 they hold only the first size - 512 bytes, the last record repeats the one before it (the header for a 512-byte file), and writing fails iff the file is more than 512 bytes short |
| Writer.Uname | tools/gpgtar-create.c:446 | the owner name fits its field |
| Writer.Gname | tools/gpgtar-create.c:447 | the group name fits its field |
| Writer.FileOutputs | tools/gpgtar-create.c:611-616 | one output per entry |
| Writer.FileOutputsAt | tools/gpgtar-create.c:611-616 | the i-th output is write_file of the i-th entry |
| Writer.StopsAtFirstError | tools/gpgtar-create.c:613-615 | nothing after a failing entry is written |
| Writer.JoinedStep | tools/gpgtar-create.c:611-616 | before the first error, each entry appends its records and its error |
| Writer.JoinedSpec | tools/gpgtar-create.c:611-616 | the loop fails iff some entry fails, with the first failing entry's error, and writes whole records only |
| Writer.ArchiveSpec | tools/gpgtar-create.c:611-617 | the archive is whole records; it succeeds iff every entry does, and then ends with two zero records; on failure it is the entries written up to the error |
| Writer.RecordStream.constructor | tools/gpgtar-create.c:595-609 | the output starts empty |
| Writer.RecordStream.WriteRecord | tools/gpgtar-create.c:512 | write_record appends the record's current bytes |
| Writer.WriteData | tools/gpgtar-create.c:515-539 | the loop over the reused buffer appends exactly DataRecords with the final read of size % 512, and returns its error |
| Writer.WriteBody | tools/gpgtar-create.c:498-540 | after the header: OpenError when the file cannot be opened, else the header and, for a regular file, the data records |
| Writer.WriteFile | tools/gpgtar-create.c:478-549 | write_file appends exactly FileOutput of the entry and returns its error; the caches hold the entry's uid and gid when build_header got past the type switch, and are unchanged otherwise |
| Writer.WriteEofMark | tools/gpgtar-create.c:552-563 | two zero records are appended |
| Writer.WriteEntries | tools/gpgtar-create.c:611-616 | the write loop appends the joined outputs of the entries, stopping at the first error |
| Writer.WriteArchive | tools/gpgtar-create.c:611-617 | the write loop and the EOF mark append exactly ArchiveOutput |
| Writer.Create | tools/gpgtar-create.c:567-617 | scanning the patterns and writing the entries produce ArchiveOutput of Collect, all in whole records |

## Left out

- File system and stream calls are inputs, not calls. `lstat`, `opendir`/`readdir`, `readlink`, `es_fopen` and the file contents come from a `FileSystem` value.
  - An unreadable directory is a directory with no listing.
  - A file that cannot be opened has no contents.
- `Writer.Read`: `es_fread` returns the bytes that are there. Partial reads that a later call would complete are not modelled.
- `write_record` errors are not modelled (tools/gpgtar-create.c:512-514, 533-535, 559-561). It always appends the record.
- `es_fclose` errors are not modelled (tools/gpgtar-create.c:542-546). Closing is not modelled at all.
- The "has grown" probe is not modelled (tools/gpgtar-create.c:537-539). It is a one-byte read that only logs, and the model does not change the records for it.
- The output stream lifecycle in `gpgtar_create` is not modelled: opening the output file or choosing stdout, flush and close, and removal on failure (tools/gpgtar-create.c:595-609, 619-636). Freeing the list (637-642) is not modelled either. `Create` returns the records and the error instead.
- Logging, `opt.verbose` and `gpgtar_print_header` are left out because they are diagnostics only.
- The allocation failure in `add_entry` is not modelled (tools/gpgtar-create.c:151-159); allocation is taken to succeed.
- `scan_recursive` returns `GPG_ERR_RESOURCE_LIMIT` above nesting level 200. Every caller ignores it, so the model only stops that branch.
- `BUG ()` aborts the process. The model returns the error `Bug` instead, and `write_file` passes it on like any other error.
- `getpwuid`, `getgrgid` and `mem2str` are not part of this model.
  - A lookup is a function from id to an optional name, given to each cache.
  - `mem2str` is taken to copy the C string, cut to n-1 bytes, and add a NUL (`IdCache.Mem2Str`).
- `gpgtar.h` is not part of this model.
  - The field widths and offsets of `struct ustar_raw_header` are the POSIX ustar ones.
  - `typeflag_t` is a datatype.
  - The root directory test `typeflag & TF_DIRECTORY` (tools/gpgtar-create.c:591) is modelled as equality with `Directory`, as in `scan_recursive`.
- Build configuration is a `Platform` value: `HAVE_DOSISH_SYSTEM`, `HAVE_DRIVE_LETTERS` and the values of `S_IXUID`, `S_IXGID` and `S_ISVTX`.
- Integer widths are not modelled. `unsigned long long`, `unsigned long` and `size_t` values are unbounded naturals. `store_xoctal`'s limits (2^63 for an 8-byte field) lie below 2^64, so its results are unchanged for every C value.
- `st_mode` is a 32-bit vector whose permission macros have their POSIX values, and its file kind is a separate datatype. `st_nlink` is copied but is never used by the writer.
- `Entry.FillupEntry`: its own contract states only the name. The mapping is stated by `Entry.FillupSpec`.
- `Writer.FileOutputSpec`: the records after the header are stated by `Writer.BodyContents` and the `DataRecords` lemmas, not by this lemma.
- `Entry.FillupEntry`: `st_mtime` is a natural number, so modification times before 1970 (a negative `st_mtime`) are not represented.

## Findings

| source | as written | input that shows it | evidently intended | confidence | as-written member | corrected member |
|---|---|---|---|---|---|---|
| tools/gpgtar-create.c:522 | `nbytes = hdr->nrecords? RECORDSIZE : (hdr->size % RECORDSIZE)` | a regular file of 512 bytes: the only data record reads 0 bytes and writes the header's bytes again, so the file's 512 bytes are lost (any positive multiple of 512 loses its last 512 bytes) | the final read takes 512 bytes when size is a multiple of 512 (`IntendedLast`) | not executed | Writer.AsWrittenRepeats, Writer.WholeRecordLost | Writer.IntendedRoundTrip |
