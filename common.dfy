/** Shared vocabulary of the USTAR writer model: bytes, error codes, results
    and byte-buffer writes (the model of memcpy/memset into a record). */
module Common {

  /** An unsigned 8-bit byte. */
  type byte = x: int | 0 <= x < 256

  /** A file system path or name, as the bytes of a C string. */
  type Path = seq<byte>

  /** The size of a tar record, RECORDSIZE. */
  const RecordSize: nat := 512

  const Nul: byte := 0
  const Slash: byte := 47      // '/'
  const Backslash: byte := 92  // '\\'
  const Dot: byte := 46        // '.'
  const Colon: byte := 58      // ':'
  const Space: byte := 32      // ' '
  const DigitZero: byte := 48  // '0'

  /** The error codes the core distinguishes. */
  datatype Error =
    | TooLarge        // GPG_ERR_TOO_LARGE: the name cannot be split into prefix and name
    | NotSupported    // GPG_ERR_NOT_SUPPORTED: the entry's type has no USTAR type flag
    | Bug             // BUG(): a numeric value does not fit its field; the process aborts
    | LinkReadError   // readlink failed
    | OpenError       // es_fopen of a regular file failed
    | ReadError       // es_fread returned fewer bytes than requested

  datatype Result<T> = Ok(value: T) | Err(error: Error) {
    predicate IsFailure() { Err? }
    function PropagateFailure<U>(): Result<U> requires Err? { Err(error) }
    function Extract(): T requires Ok? { value }
  }

  datatype Option<T> = None | Some(value: T)

  /** The build configuration the core depends on: HAVE_DOSISH_SYSTEM,
      HAVE_DRIVE_LETTERS, and the values of the mode macros S_IXUID, S_IXGID
      and S_ISVTX, each None where the system does not define it (the #ifdef
      blocks of fillup_entry are then compiled out). */
  datatype Platform = Platform(
    dosish: bool,
    driveLetters: bool,
    ixuid: Option<bv32>,
    ixgid: Option<bv32>,
    isvtx: Option<bv32>)

  /** DIRSEP_C: the backslash on DOS-like systems, the slash elsewhere. */
  function DirSep(p: Platform): byte {
    if p.dosish then Backslash else Slash
  }

  function Min(a: int, b: int): int { if a < b then a else b }

  /** n zero bytes (memset 0). */
  function Zeros(n: nat): (z: seq<byte>)
    ensures |z| == n && forall i :: 0 <= i < n ==> z[i] == 0
  {
    seq(n, _ => 0)
  }

  /** The buffer b after copying x to offset off (memcpy). */
  function Put(b: seq<byte>, off: nat, x: seq<byte>): (r: seq<byte>)
    requires off + |x| <= |b|
    ensures |r| == |b|
  {
    b[..off] + x + b[off + |x|..]
  }

  lemma PutAt(b: seq<byte>, off: nat, x: seq<byte>)
    requires off + |x| <= |b|
    ensures forall i :: 0 <= i < |b| ==> Put(b, off, x)[i] == if off <= i < off + |x| then x[i - off] else b[i]
  {
  }

  /** A second write over the same bytes hides the first. */
  lemma PutTwice(b: seq<byte>, off: nat, x: seq<byte>, y: seq<byte>)
    requires off + |x| <= |b| && |x| == |y|
    ensures Put(Put(b, off, x), off, y) == Put(b, off, y)
  {
  }

  /** x followed by zero bytes up to width w: what x leaves in a zeroed field. */
  function Pad(x: seq<byte>, w: nat): (r: seq<byte>)
    requires |x| <= w
  {
    x + Zeros(w - |x|)
  }

  /** The C string held by s: its bytes before the first NUL. */
  function CStr(s: seq<byte>): (r: seq<byte>)
    ensures |r| <= |s| && r == s[..|r|]
    ensures forall i :: 0 <= i < |r| ==> r[i] != Nul
    ensures |r| < |s| ==> s[|r|] == Nul
  {
    if s == [] || s[0] == Nul then [] else [s[0]] + CStr(s[1..])
  }

  /** True when s holds no NUL byte, so that strlen(s) == |s|. */
  predicate NoNul(s: seq<byte>) {
    forall i :: 0 <= i < |s| ==> s[i] != Nul
  }

  /** Writing a prefix of a zeroed field leaves the padded value. */
  lemma PutZeros(x: seq<byte>, w: nat)
    requires |x| <= w
    ensures Put(Zeros(w), 0, x) == Pad(x, w)
  {
  }

  /** A string and its NUL terminator copied into a zeroed field leave the
      padded string. */
  lemma PutTerminated(x: seq<byte>, w: nat)
    requires |x| < w
    ensures Put(Zeros(w), 0, x + [Nul]) == Pad(x, w)
  {
    assert Put(Zeros(w), 0, x + [Nul]) == x + [Nul] + Zeros(w - |x| - 1);
  }

  /** A string without NUL is its own C string. */
  lemma CStrOfNoNul(s: seq<byte>)
    requires NoNul(s)
    ensures CStr(s) == s
  {
  }

  /** A reader finds a padded string back in its field, provided it has no
      NUL and leaves room for one. */
  lemma CStrPad(x: seq<byte>, w: nat)
    requires NoNul(x) && |x| < w
    ensures CStr(Pad(x, w)) == x
  {
    var s := Pad(x, w);
    assert s[|x|] == Nul;
    assert forall i :: 0 <= i < |x| ==> s[i] == x[i];
  }

  /** n space bytes (memset ' '). */
  function Spaces(n: nat): (z: seq<byte>)
    ensures |z| == n && forall i :: 0 <= i < n ==> z[i] == Space
  {
    seq(n, _ => Space)
  }

  /** memcpy (buffer + off, x, |x|). */
  method Copy(buffer: array<byte>, off: nat, x: seq<byte>)
    requires off + |x| <= buffer.Length
    modifies buffer
    ensures buffer[..] == Put(old(buffer[..]), off, x)
  {
    forall i | 0 <= i < |x| {
      buffer[off + i] := x[i];
    }
    assert buffer[..] == Put(old(buffer[..]), off, x);
  }

  lemma AppendAssoc<T>(a: seq<T>, b: seq<T>, c: seq<T>)
    ensures a + (b + c) == a + b + c
  {
  }

  lemma SplitAt<T>(s: seq<T>, k: nat)
    requires k <= |s|
    ensures s[..k] + s[k..] == s && s[..|s|] == s && s[..0] == []
  {
  }

  lemma Around<T>(s: seq<T>, k: nat)
    requires k < |s|
    ensures s == s[..k] + [s[k]] + s[k + 1..]
  {
  }
}
