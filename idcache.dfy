/** The single-slot caches of store_uname and store_gname: each remembers the
    last id it looked up and the name it found, and copies that name into the
    header field. The two functions differ only in the lookup (getpwuid or
    getgrgid), so one class serves both. */
module IdCache {
  import opened Common

  /** mem2str (dest, src, n), as the header uses it: the C string in src,
      cut to at most n-1 bytes; dest receives these bytes and a NUL.
      mem2str is not part of this model; this is the behaviour assumed. */
  function Mem2Str(src: seq<byte>, n: nat): (r: seq<byte>)
    requires n > 0
    ensures |r| < n && NoNul(r)
  {
    var c := CStr(src);
    c[..Min(|c|, n - 1)]
  }

  /** Copying a copied string again changes nothing, which is why the header
      can take the name from the cache instead of from the lookup. */
  lemma Mem2StrTwice(src: seq<byte>, n: nat)
    requires n > 0
    ensures Mem2Str(Mem2Str(src, n), n) == Mem2Str(src, n)
  {
    var r := Mem2Str(src, n);
    CStrOfNoNul(r);
  }

  /** The result is a prefix of the source string, and all of it when it is
      short enough. */
  lemma Mem2StrPrefix(src: seq<byte>, n: nat)
    requires n > 0
    ensures var r := Mem2Str(src, n);
      && r <= CStr(src)
      && (|CStr(src)| < n ==> r == CStr(src))
  {
  }

  /** The width of the uname and gname fields and of the static buffers. */
  const NameFieldSize: nat := 32

  /** The name the header gets for id: the looked-up name copied into the
      32-byte static buffer, or the empty string when the lookup fails. */
  function ResolvedName(lookup: nat -> Option<seq<byte>>, id: nat): (r: seq<byte>)
    ensures |r| < NameFieldSize && NoNul(r)
  {
    match lookup(id)
    case None => []
    case Some(name) => Mem2Str(name, NameFieldSize)
  }

  /** The static variables of one of store_uname / store_gname. lookup is
      getpwuid or getgrgid reduced to the name it returns (None when it
      returns NULL); lookups counts the calls made to it. */
  class NameCache {
    const lookup: nat -> Option<seq<byte>>
    var initialized: bool
    var lastId: nat
    var lastName: seq<byte>
    ghost var lookups: nat

    /** Once filled, the slot holds the name of its id. */
    ghost predicate Valid()
      reads this
    {
      initialized ==> lastName == ResolvedName(lookup, lastId)
    }

    /** The zero-initialised statics. */
    constructor(lookup: nat -> Option<seq<byte>>)
      ensures this.lookup == lookup
      ensures Valid() && !initialized && lookups == 0
    {
      this.lookup := lookup;
      initialized := false;
      lastId := 0;
      lastName := [];
      lookups := 0;
    }

    /** store_uname (buffer + off, length, id): refreshes the slot unless it
        already holds id, then copies the slot's name and a NUL into the
        field. The bytes written are those of the name of id whatever the
        slot held before; the lookup runs only on a miss. */
    method Store(buffer: array<byte>, off: nat, length: nat, id: nat)
      requires Valid() && 0 < length <= NameFieldSize && off + length <= buffer.Length
      modifies this, buffer
      ensures Valid() && initialized && lastId == id
      ensures lookups == old(lookups) + (if old(initialized) && old(lastId) == id then 0 else 1)
      ensures var r := Mem2Str(ResolvedName(lookup, id), length);
        buffer[..] == Put(old(buffer[..]), off, r + [Nul])
    {
      if !initialized || id != lastId {
        var found := lookup(id);
        lookups := lookups + 1;
        lastId := id;
        initialized := true;
        if found.Some? {
          lastName := Mem2Str(found.value, NameFieldSize);
        } else {
          lastName := [];
        }
      }
      var r := Mem2Str(lastName, length);
      forall i | 0 <= i < |r| + 1 {
        buffer[off + i] := (r + [Nul])[i];
      }
      assert buffer[..] == Put(old(buffer[..]), off, r + [Nul]);
    }
  }

  /** With the full field width, the bytes Store writes are the resolved name
      itself: the cache never changes what the header holds. */
  lemma StoredName(lookup: nat -> Option<seq<byte>>, id: nat)
    ensures Mem2Str(ResolvedName(lookup, id), NameFieldSize) == ResolvedName(lookup, id)
  {
    var r := ResolvedName(lookup, id);
    CStrOfNoNul(r);
  }
}
