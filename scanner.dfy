/** The scan that builds the list of entries to archive: pattern_valid_p,
    the naming in add_entry, scan_directory, scan_recursive and the pattern
    loop of gpgtar_create. The file system is an abstract value: what lstat,
    opendir/readdir, readlink and reading a regular file report for each
    path. The linked list with its flist_tail link is a sequence appended to. */
module Scanner {
  import opened Common
  import opened Entry

  /** What the system calls report. A path missing from lstat fails lstat; a
      path missing from dirs fails opendir, and a listing holds the names
      readdir returns, "." and ".." included, in directory order. links gives
      what readlink returns; contents the bytes a regular file yields when it
      is read, a missing path failing es_fopen. */
  datatype FileSystem = FileSystem(
    lstat: map<Path, Stat>,
    dirs: map<Path, seq<Path>>,
    links: map<Path, seq<byte>>,
    contents: map<Path, seq<byte>>)

  // ---------------------------------------------------------------------
  // Patterns and names

  predicate IsLetter(c: byte) {
    (97 <= c <= 122) || (65 <= c <= 90)
  }

  /** pattern_valid_p: refuses the empty pattern, one starting with "..",
      an absolute one, and (with drive letters) one starting "X:". */
  predicate PatternValid(pattern: Path, p: Platform) {
    if pattern == [] then false
    else if pattern[0] == Dot && |pattern| > 1 && pattern[1] == Dot then false
    else if pattern[0] == Slash || pattern[0] == DirSep(p) then false
    else if p.driveLetters && IsLetter(pattern[0]) && |pattern| > 1 && pattern[1] == Colon then false
    else true
  }

  /** One byte of the HAVE_DOSISH_SYSTEM loop of add_entry. */
  function Unify(c: byte): byte {
    if c == Backslash then Slash else c
  }

  /** Every backslash of s turned into a slash. */
  function Unified(s: Path): (r: Path)
    ensures |r| == |s|
    ensures forall i :: 0 <= i < |s| ==> r[i] == Unify(s[i])
  {
    if s == [] then [] else Unified(s[..|s| - 1]) + [Unify(s[|s| - 1])]
  }

  /** The HAVE_DOSISH_SYSTEM rewrite of a name. */
  function Dosify(s: Path, p: Platform): (r: Path)
    ensures |r| == |s|
  {
    if p.dosish then Unified(s) else s
  }

  lemma DosifyAppend(a: Path, b: Path, p: Platform)
    ensures Dosify(a + b, p) == Dosify(a, p) + Dosify(b, p)
  {
  }

  /** The rewrite has nothing left to do on its own result. */
  lemma DosifyTwice(s: Path, p: Platform)
    ensures Dosify(Dosify(s, p), p) == Dosify(s, p)
  {
  }

  /** A rewritten name starts with a slash only if the original started with
      a slash or with DIRSEP_C. */
  lemma DosifyFirst(s: Path, p: Platform)
    requires s != [] && s[0] != Slash && s[0] != DirSep(p)
    ensures Dosify(s, p)[0] != Slash
  {
  }

  /** The name add_entry gives the entry for a pattern: one trailing slash
      removed. */
  function RootPath(pattern: Path): (r: Path)
    requires pattern != []
    ensures r == pattern || r + [Slash] == pattern
  {
    if pattern[|pattern| - 1] == Slash then pattern[..|pattern| - 1] else pattern
  }

  /** The name add_entry gives a directory member: the directory name, a
      slash unless it already ends in one, and the member's name. */
  function ChildPath(dname: Path, child: Path): Path
    requires dname != []
  {
    dname + (if dname[|dname| - 1] != Slash then [Slash] else []) + child
  }

  /** Joining puts exactly one slash between the directory (without its
      trailing slash) and the member. */
  lemma ChildPathSpec(dname: Path, child: Path)
    requires dname != []
    ensures ChildPath(dname, child) == RootPath(dname) + [Slash] + child
  {
  }

  /** "." and "..", which scan_directory skips. */
  predicate SelfOrParent(name: Path) {
    name == [Dot] || name == [Dot, Dot]
  }

  // ---------------------------------------------------------------------
  // The entries the scan lists

  /** add_entry's effect on the list: the entry for name, when lstat of name
      succeeds, and nothing when it fails. */
  function NewEntry(fs: FileSystem, name: Path, p: Platform): (r: seq<TarEntry>)
    ensures |r| <= 1
  {
    if name in fs.lstat then [FillupEntry(name, fs.lstat[name], p)] else []
  }

  /** The entries add_entry makes for the listed names, in listing order. */
  function Listed(fs: FileSystem, dname: Path, names: seq<Path>, p: Platform): (r: seq<TarEntry>)
    requires dname != []
    ensures |r| <= |names|
  {
    if names == [] then []
    else
      var c := names[|names| - 1];
      Listed(fs, dname, names[..|names| - 1], p)
        + (if SelfOrParent(c) then [] else NewEntry(fs, Dosify(ChildPath(dname, c), p), p))
  }

  /** scan_directory: the entries of the members of dname, none when the
      name is empty or opendir fails. */
  function ScanDir(fs: FileSystem, dname: Path, p: Platform): seq<TarEntry> {
    if dname == [] || dname !in fs.dirs then [] else Listed(fs, dname, fs.dirs[dname], p)
  }

  /** scan_recursive at nesting level level: nothing above level 200;
      otherwise the members of dname, followed by what the scan of each
      member that is a directory adds, in order. */
  function Expand(fs: FileSystem, dname: Path, level: nat, p: Platform): seq<TarEntry>
    decreases 202 - level, 0, 0
  {
    if level > 200 then []
    else
      var es := ScanDir(fs, dname, p);
      es + ExpandEach(fs, es, level + 1, p)
  }

  /** The scans started for the directories among es. */
  function ExpandEach(fs: FileSystem, es: seq<TarEntry>, level: nat, p: Platform): seq<TarEntry>
    decreases 202 - level, 1, |es|
  {
    if es == [] then []
    else
      var e := es[|es| - 1];
      ExpandEach(fs, es[..|es| - 1], level, p)
        + (if e.typeflag == Directory then Expand(fs, e.name, level, p) else [])
  }

  /** What one pattern of gpgtar_create adds when the scan is at nesting
      level level (0 in gpgtar_create): nothing for an empty or invalid
      pattern; otherwise the pattern's own entry, followed by the recursive
      scan when that entry is a directory. */
  function PatternEntries(fs: FileSystem, pattern: Path, level: nat, p: Platform): seq<TarEntry> {
    if !PatternValid(pattern, p) then []
    else
      var r := NewEntry(fs, Dosify(RootPath(pattern), p), p);
      if r != [] && r[0].typeflag == Directory then r + Expand(fs, pattern, level, p) else r
  }

  /** The entry list after the pattern loop. */
  function Collect(fs: FileSystem, patterns: seq<Path>, level: nat, p: Platform): seq<TarEntry> {
    if patterns == [] then []
    else Collect(fs, patterns[..|patterns| - 1], level, p) + PatternEntries(fs, patterns[|patterns| - 1], level, p)
  }

  // ---------------------------------------------------------------------
  // Properties of the list

  /** Every entry is fillup_entry's classification of what lstat reports
      for its name. */
  predicate Classified(fs: FileSystem, es: seq<TarEntry>, p: Platform) {
    forall i :: 0 <= i < |es| ==> es[i].name in fs.lstat && es[i] == FillupEntry(es[i].name, fs.lstat[es[i].name], p)
  }

  /** Every entry's name begins with prefix. */
  predicate AllUnder(es: seq<TarEntry>, prefix: Path) {
    forall i :: 0 <= i < |es| ==> prefix <= es[i].name
  }

  /** The names below a directory begin with its rewritten name and a slash. */
  function Below(dname: Path, p: Platform): Path
    requires dname != []
  {
    Dosify(RootPath(dname), p) + [Slash]
  }

  lemma {:induction false} ListedSpec(fs: FileSystem, dname: Path, names: seq<Path>, p: Platform)
    requires dname != []
    ensures Classified(fs, Listed(fs, dname, names, p), p)
    ensures AllUnder(Listed(fs, dname, names, p), Below(dname, p))
    decreases |names|
  {
    if names != [] {
      var c := names[|names| - 1];
      ListedSpec(fs, dname, names[..|names| - 1], p);
      ChildPathSpec(dname, c);
      DosifyAppend(RootPath(dname) + [Slash], c, p);
      DosifyAppend(RootPath(dname), [Slash], p);
      assert Below(dname, p) <= Dosify(ChildPath(dname, c), p);
    }
  }

  /** The members scan_directory lists are classified lstat results whose
      names lie below the directory, at most one per listed name. */
  lemma ScanDirSpec(fs: FileSystem, dname: Path, p: Platform)
    ensures Classified(fs, ScanDir(fs, dname, p), p)
    ensures dname != [] ==> AllUnder(ScanDir(fs, dname, p), Below(dname, p))
    ensures |ScanDir(fs, dname, p)| <= if dname != [] && dname in fs.dirs then |fs.dirs[dname]| else 0
  {
    if dname != [] && dname in fs.dirs {
      ListedSpec(fs, dname, fs.dirs[dname], p);
    }
  }

  /** The prefix of the names below a directory is left alone by the
      rewrite. */
  lemma BelowRewritten(dname: Path, p: Platform)
    requires dname != []
    ensures Dosify(Below(dname, p), p) == Below(dname, p)
  {
    DosifyAppend(Dosify(RootPath(dname), p), [Slash], p);
    DosifyTwice(RootPath(dname), p);
  }

  /** The names below a member of a directory are below the directory. */
  lemma BelowMember(dname: Path, name: Path, p: Platform)
    requires dname != [] && Below(dname, p) <= name
    ensures name != [] && Below(dname, p) <= Below(name, p)
  {
    var b := Below(dname, p);
    var r := RootPath(name);
    BelowRewritten(dname, p);
    if |r| >= |b| {
      assert r == b + r[|b|..];
      DosifyAppend(b, r[|b|..], p);
    } else {
      assert name == b;
      assert r == Dosify(RootPath(dname), p);
      DosifyTwice(RootPath(dname), p);
    }
  }

  lemma ConcatSpec(fs: FileSystem, a: seq<TarEntry>, b: seq<TarEntry>, prefix: Path, p: Platform)
    ensures Classified(fs, a, p) && Classified(fs, b, p) ==> Classified(fs, a + b, p)
    ensures AllUnder(a, prefix) && AllUnder(b, prefix) ==> AllUnder(a + b, prefix)
  {
  }

  /** Everything scan_recursive adds for dname is a classified lstat result
      whose name lies below dname. */
  lemma {:induction false} ExpandSpec(fs: FileSystem, dname: Path, level: nat, p: Platform)
    ensures Classified(fs, Expand(fs, dname, level, p), p)
    ensures dname != [] ==> AllUnder(Expand(fs, dname, level, p), Below(dname, p))
    decreases 202 - level, 0, 0
  {
    if level <= 200 {
      var es := ScanDir(fs, dname, p);
      ScanDirSpec(fs, dname, p);
      if dname != [] {
        ExpandEachSpec(fs, es, dname, level + 1, p);
        ConcatSpec(fs, es, ExpandEach(fs, es, level + 1, p), Below(dname, p), p);
      } else {
        assert es == [];
      }
    }
  }

  lemma {:induction false} ExpandEachSpec(fs: FileSystem, es: seq<TarEntry>, dname: Path, level: nat, p: Platform)
    requires dname != [] && AllUnder(es, Below(dname, p))
    ensures Classified(fs, ExpandEach(fs, es, level, p), p)
    ensures AllUnder(ExpandEach(fs, es, level, p), Below(dname, p))
    decreases 202 - level, 1, |es|
  {
    if es != [] {
      var e := es[|es| - 1];
      var front := es[..|es| - 1];
      assert AllUnder(front, Below(dname, p));
      ExpandEachSpec(fs, front, dname, level, p);
      if e.typeflag == Directory {
        assert Below(dname, p) <= e.name;
        BelowMember(dname, e.name, p);
        ExpandSpec(fs, e.name, level, p);
        var sub := Expand(fs, e.name, level, p);
        assert AllUnder(sub, Below(dname, p)) by {
          forall i | 0 <= i < |sub| ensures Below(dname, p) <= sub[i].name {
            assert Below(e.name, p) <= sub[i].name;
          }
        }
        ConcatSpec(fs, ExpandEach(fs, front, level, p), sub, Below(dname, p), p);
      } else {
        ConcatSpec(fs, ExpandEach(fs, front, level, p), [], Below(dname, p), p);
      }
    }
  }

  /** A name a tar reader takes as relative: not empty and not starting with
      a slash. */
  predicate Relative(name: Path) {
    name != [] && name[0] != Slash
  }

  predicate AllRelative(es: seq<TarEntry>) {
    forall i :: 0 <= i < |es| ==> Relative(es[i].name)
  }

  /** What an accepted pattern adds: classified entries with relative
      names, the first the pattern's own entry, the others below it. */
  lemma PatternEntriesSpec(fs: FileSystem, pattern: Path, level: nat, p: Platform)
    ensures Classified(fs, PatternEntries(fs, pattern, level, p), p)
    ensures AllRelative(PatternEntries(fs, pattern, level, p))
    ensures PatternEntries(fs, pattern, level, p) != [] ==>
      && PatternValid(pattern, p)
      && PatternEntries(fs, pattern, level, p)[0].name == Dosify(RootPath(pattern), p)
      && AllUnder(PatternEntries(fs, pattern, level, p)[1..], Below(pattern, p))
  {
    if PatternValid(pattern, p) {
      var root := RootPath(pattern);
      assert root != [] && root[0] == pattern[0];
      DosifyFirst(root, p);
      var r := NewEntry(fs, Dosify(root, p), p);
      if r != [] && r[0].typeflag == Directory {
        var sub := Expand(fs, pattern, level, p);
        ExpandSpec(fs, pattern, level, p);
        assert (r + sub)[1..] == sub;
        assert AllRelative(sub) by {
          forall i | 0 <= i < |sub| ensures Relative(sub[i].name) {
            assert Below(pattern, p) <= sub[i].name;
            assert sub[i].name[0] == Below(pattern, p)[0];
          }
        }
      }
    }
  }

  /** The whole list: every entry is a classified lstat result with a
      relative name. */
  lemma {:induction false} CollectSpec(fs: FileSystem, patterns: seq<Path>, level: nat, p: Platform)
    ensures Classified(fs, Collect(fs, patterns, level, p), p)
    ensures AllRelative(Collect(fs, patterns, level, p))
    decreases |patterns|
  {
    if patterns != [] {
      var front := patterns[..|patterns| - 1];
      CollectSpec(fs, front, level, p);
      PatternEntriesSpec(fs, patterns[|patterns| - 1], level, p);
      ConcatSpec(fs, Collect(fs, front, level, p), PatternEntries(fs, patterns[|patterns| - 1], level, p), [], p);
    }
  }

  // ---------------------------------------------------------------------
  // The scan as the C code runs it

  /** The HAVE_DOSISH_SYSTEM loop over the new name. */
  method RewriteSeparators(s: Path, p: Platform) returns (name: Path)
    ensures name == Dosify(s, p)
  {
    name := s;
    if p.dosish {
      var i := 0;
      while i < |name|
        invariant i <= |name| == |s|
        invariant forall j :: 0 <= j < i ==> name[j] == Unify(s[j])
        invariant forall j :: i <= j < |s| ==> name[j] == s[j]
      {
        if name[i] == Backslash {
          name := name[i := Slash];
        }
        i := i + 1;
      }
    }
  }

  lemma ListedStep(fs: FileSystem, dname: Path, names: seq<Path>, i: nat, p: Platform)
    requires dname != [] && i < |names|
    ensures Listed(fs, dname, names[..i + 1], p) == Listed(fs, dname, names[..i], p)
      + (if SelfOrParent(names[i]) then [] else NewEntry(fs, Dosify(ChildPath(dname, names[i]), p), p))
  {
    assert names[..i + 1][..i] == names[..i];
  }

  lemma ExpandEachStep(fs: FileSystem, es: seq<TarEntry>, i: nat, level: nat, p: Platform)
    requires i < |es|
    ensures ExpandEach(fs, es[..i + 1], level, p) == ExpandEach(fs, es[..i], level, p)
      + (if es[i].typeflag == Directory then Expand(fs, es[i].name, level, p) else [])
  {
    assert es[..i + 1][..i] == es[..i];
  }

  lemma ExpandUnfold(fs: FileSystem, dname: Path, level: nat, p: Platform)
    requires level <= 200
    ensures Expand(fs, dname, level, p) == ScanDir(fs, dname, p) + ExpandEach(fs, ScanDir(fs, dname, p), level + 1, p)
  {
  }

  lemma CollectStep(fs: FileSystem, patterns: seq<Path>, k: nat, level: nat, p: Platform)
    requires k < |patterns|
    ensures Collect(fs, patterns[..k + 1], level, p) == Collect(fs, patterns[..k], level, p) + PatternEntries(fs, patterns[k], level, p)
  {
    assert patterns[..k + 1][..k] == patterns[..k];
  }

  /** struct scanctrl_s: the entry list (flist with flist_tail) and
      the nesting level, together with the file system and the build
      configuration the scan runs on. */
  class ScanCtrl {
    const fs: FileSystem
    const platform: Platform
    var flist: seq<TarEntry>
    var nestlevel: nat

    /** The memset in gpgtar_create: an empty list at level 0. */
    constructor(fs: FileSystem, platform: Platform)
      ensures this.fs == fs && this.platform == platform
      ensures flist == [] && nestlevel == 0
    {
      this.fs := fs;
      this.platform := platform;
      flist := [];
      nestlevel := 0;
    }

    /** add_entry (dname, dnamelen, de, scanctrl): the name is the member's
        joined to dname, or dname without one trailing slash when there is
        no member; the entry is appended when lstat succeeds. */
    method AddEntry(dname: Path, child: Option<Path>)
      requires dname != []
      modifies this
      ensures nestlevel == old(nestlevel)
      ensures child.Some? ==> flist == old(flist) + NewEntry(fs, Dosify(ChildPath(dname, child.value), platform), platform)
      ensures child.None? ==> flist == old(flist) + NewEntry(fs, Dosify(RootPath(dname), platform), platform)
    {
      var name := dname;
      if child.Some? {
        if dname[|dname| - 1] != Slash {
          name := name + [Slash];
        }
        name := name + child.value;
        assert name == ChildPath(dname, child.value);
      } else if name[|dname| - 1] == Slash {
        name := name[..|dname| - 1];
      }
      name := RewriteSeparators(name, platform);
      if name in fs.lstat {
        flist := flist + [FillupEntry(name, fs.lstat[name], platform)];
      }
    }

    /** scan_directory (dname, scanctrl): one add_entry per member readdir
        returns, "." and ".." skipped. */
    method ScanDirectory(dname: Path)
      modifies this
      ensures nestlevel == old(nestlevel)
      ensures flist == old(flist) + ScanDir(fs, dname, platform)
    {
      if |dname| == 0 {
        return;
      }
      if dname !in fs.dirs {
        return;  // opendir failed
      }
      var listing := fs.dirs[dname];
      var i := 0;
      while i < |listing|
        invariant i <= |listing|
        invariant nestlevel == old(nestlevel)
        invariant flist == old(flist) + Listed(fs, dname, listing[..i], platform)
      {
        var c := listing[i];
        ListedStep(fs, dname, listing, i, platform);
        if !SelfOrParent(c) {
          AddEntry(dname, Some(c));
        }
        i := i + 1;
      }
      assert listing[..|listing|] == listing;
    }

    /** scan_recursive (dname, scanctrl): above level 200 nothing happens;
        otherwise the members of dname are listed and each member that is a
        directory is scanned in turn, one level deeper. The loop walks the
        list from the first entry scan_directory added up to the entry the
        old flist_tail now refers to, which are exactly the entries
        scan_directory added. */
    method ScanRecursive(dname: Path)
      modifies this
      ensures nestlevel == old(nestlevel)
      ensures flist == old(flist) + Expand(fs, dname, old(nestlevel), platform)
      decreases 201 - nestlevel, 2
    {
      if nestlevel > 200 {
        return;  // GPG_ERR_RESOURCE_LIMIT, which no caller looks at
      }
      nestlevel := nestlevel + 1;
      var start := |flist|;
      ScanDirectory(dname);
      var members := flist[start..];
      assert members == ScanDir(fs, dname, platform);
      ScanMembers(members);
      nestlevel := nestlevel - 1;
      ExpandUnfold(fs, dname, nestlevel, platform);
    }

    /** The loop of scan_recursive over the entries scan_directory has just
        added, which stay where they are while the recursive scans append
        behind them. */
    method ScanMembers(members: seq<TarEntry>)
      requires 0 < nestlevel <= 201
      modifies this
      ensures nestlevel == old(nestlevel)
      ensures flist == old(flist) + ExpandEach(fs, members, nestlevel, platform)
      decreases 202 - nestlevel, 1
    {
      var i := 0;
      while i < |members|
        invariant i <= |members|
        invariant nestlevel == old(nestlevel)
        invariant flist == old(flist) + ExpandEach(fs, members[..i], nestlevel, platform)
      {
        ExpandEachStep(fs, members, i, nestlevel, platform);
        ScanMember(members[i]);
        i := i + 1;
      }
      assert members[..|members|] == members;
    }

    /** One turn of that loop: the recursive scan of a member that is a
        directory. */
    method ScanMember(hdr: TarEntry)
      requires 0 < nestlevel <= 201
      modifies this
      ensures nestlevel == old(nestlevel)
      ensures flist == old(flist) + if hdr.typeflag == Directory then Expand(fs, hdr.name, nestlevel, platform) else []
      decreases 202 - nestlevel, 0
    {
      if hdr.typeflag == Directory {
        ScanRecursive(hdr.name);
      } else {
        assert flist == old(flist) + [];
      }
    }

    /** The pattern loop of gpgtar_create. */
    method AddPatterns(patterns: seq<Path>)
      modifies this
      ensures nestlevel == old(nestlevel)
      ensures flist == old(flist) + Collect(fs, patterns, nestlevel, platform)
    {
      var k := 0;
      while k < |patterns|
        invariant k <= |patterns| && nestlevel == old(nestlevel)
        invariant flist == old(flist) + Collect(fs, patterns[..k], nestlevel, platform)
      {
        ghost var done := Collect(fs, patterns[..k], nestlevel, platform);
        ghost var next := PatternEntries(fs, patterns[k], nestlevel, platform);
        CollectStep(fs, patterns, k, nestlevel, platform);
        AddPattern(patterns[k]);
        AppendAssoc(old(flist), done, next);
        k := k + 1;
      }
      assert patterns[..|patterns|] == patterns;
    }

    /** The body of the pattern loop: empty and invalid patterns are
        skipped; otherwise the pattern's entry is added and, when it is a
        directory, scanned. */
    method AddPattern(pattern: Path)
      modifies this
      ensures nestlevel == old(nestlevel)
      ensures flist == old(flist) + PatternEntries(fs, pattern, nestlevel, platform)
    {
      if |pattern| == 0 {
        return;
      }
      var start := |flist|;
      if !PatternValid(pattern, platform) {
        return;  // "skipping invalid name"
      }
      ghost var before := flist;
      ghost var root := NewEntry(fs, Dosify(RootPath(pattern), platform), platform);
      AddEntry(pattern, None);
      var added := flist[start..];
      assert added == root;
      if added != [] && added[0].typeflag == Directory {
        ghost var below := Expand(fs, pattern, nestlevel, platform);
        ScanRecursive(pattern);
        assert PatternEntries(fs, pattern, nestlevel, platform) == root + below;
        AppendAssoc(before, root, below);
      } else {
        assert PatternEntries(fs, pattern, nestlevel, platform) == root;
      }
    }
  }
}
