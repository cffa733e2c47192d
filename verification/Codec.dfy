/** The byte layouts the file system keeps in a 512-byte sector: 32-bit little-endian words,
    the 128-word indirect block table, and the 21 directory entries of 24 bytes each. */
module Codec {

  datatype Option<T> = None | Some(value: T)

  type byte = x: int | 0 <= x < 256

  type Sector = s: seq<byte> | |s| == 512 witness ZeroBytes(512)

  function ZeroBytes(n: nat): (z: seq<byte>)
    ensures |z| == n && forall i :: 0 <= i < n ==> z[i] == 0
  {
    seq(n, _ => 0)
  }

  const ZERO_SECTOR: Sector := ZeroBytes(512)

  /** Exclusive bound of a uint32_t. */
  const WORD := 0x1_0000_0000

  /** struct dir_entry; `ftype` is 0 (unknown, a dead entry), 1 (regular) or 2 (directory). */
  datatype DirEntry = DirEntry(name: seq<byte>, ino: nat, ftype: nat)

  const DEAD := DirEntry([], 0, 0)
  const FT_REGULAR := 1
  const FT_DIRECTORY := 2

  /** The entries that fit their 24 bytes and come back unchanged: a C string of at most 15 characters. */
  predicate Storable(e: DirEntry) {
    |e.name| <= 15 && 0 !in e.name && e.ino < WORD && e.ftype < WORD
  }

  function Enc32(x: nat): (w: seq<byte>)
    requires x < WORD
    ensures |w| == 4
  {
    var a := x / 256;
    var b := a / 256;
    [x % 256, a % 256, b % 256, b / 256]
  }

  function Dec32(w: seq<byte>): nat
    requires |w| == 4
  {
    var b0: int, b1: int, b2: int, b3: int := w[0], w[1], w[2], w[3];
    b0 + 256 * (b1 + 256 * (b2 + 256 * b3))
  }

  lemma WordRoundTrip(x: nat)
    requires x < WORD
    ensures Dec32(Enc32(x)) == x
  {
    var a := x / 256;
    var b := a / 256;
    assert x == 256 * a + x % 256 && a == 256 * b + a % 256;
  }

  // ---- the indirect block table ----

  function Table(s: Sector): (t: seq<nat>)
    ensures |t| == 128
  {
    seq(128, i requires 0 <= i < 128 => Dec32(s[4 * i..4 * i + 4]))
  }

  predicate Words(t: seq<nat>) {
    |t| == 128 && forall i :: 0 <= i < 128 ==> t[i] < WORD
  }

  function EncTable(t: seq<nat>): Sector
    requires Words(t)
  {
    seq(512, i requires 0 <= i < 512 => Enc32(t[i / 4])[i % 4])
  }

  lemma TableRoundTrip(t: seq<nat>)
    requires Words(t)
    ensures Table(EncTable(t)) == t
  {
    var s := EncTable(t);
    forall i | 0 <= i < 128
      ensures Table(s)[i] == t[i]
    {
      var w := Enc32(t[i]);
      assert s[4 * i..4 * i + 4] == w by {
        forall q | 0 <= q < 4
          ensures s[4 * i + q] == w[q]
        {
          assert (4 * i + q) / 4 == i && (4 * i + q) % 4 == q;
        }
      }
      WordRoundTrip(t[i]);
    }
  }

  // ---- directory entries ----

  /** The C string held in a character array: everything before the first NUL. */
  function CStr(f: seq<byte>): (n: seq<byte>)
    ensures 0 !in n && |n| <= |f|
  {
    if f == [] || f[0] == 0 then [] else [f[0]] + CStr(f[1..])
  }

  function Pad(n: seq<byte>): (f: seq<byte>)
    requires |n| <= 16
    ensures |f| == 16
  {
    n + seq(16 - |n|, _ => 0)
  }

  lemma {:induction false} CStrOfPadded(n: seq<byte>, z: nat)
    requires 0 !in n && z > 0
    ensures CStr(n + seq(z, _ => 0)) == n
  {
    var f := n + seq(z, _ => 0);
    if n != [] {
      assert f[1..] == n[1..] + seq(z, _ => 0);
      CStrOfPadded(n[1..], z);
    }
  }

  function EncEntry(e: DirEntry): (w: seq<byte>)
    requires Storable(e)
    ensures |w| == 24
  {
    Pad(e.name) + Enc32(e.ino) + Enc32(e.ftype)
  }

  function DecEntry(w: seq<byte>): DirEntry
    requires |w| == 24
  {
    DirEntry(CStr(w[..16]), Dec32(w[16..20]), Dec32(w[20..]))
  }

  lemma EntryRoundTrip(e: DirEntry)
    requires Storable(e)
    ensures DecEntry(EncEntry(e)) == e
  {
    var w := EncEntry(e);
    assert w[..16] == Pad(e.name) && w[16..20] == Enc32(e.ino) && w[20..] == Enc32(e.ftype);
    CStrOfPadded(e.name, 16 - |e.name|);
    WordRoundTrip(e.ino);
    WordRoundTrip(e.ftype);
  }

  function Entries(s: Sector): (t: seq<DirEntry>)
    ensures |t| == 21
  {
    seq(21, j requires 0 <= j < 21 => DecEntry(s[24 * j..24 * j + 24]))
  }

  function PutEntry(s: Sector, j: nat, e: DirEntry): Sector
    requires j < 21 && Storable(e)
  {
    s[..24 * j] + EncEntry(e) + s[24 * j + 24..]
  }

  /** Overwriting entry j of a sector changes entry j and no other. */
  lemma PutEntryUpdates(s: Sector, j: nat, e: DirEntry)
    requires j < 21 && Storable(e)
    ensures Entries(PutEntry(s, j, e)) == Entries(s)[j := e]
  {
    var p := PutEntry(s, j, e);
    EntryRoundTrip(e);
    assert p[24 * j..24 * j + 24] == EncEntry(e);
    forall i | 0 <= i < 21 && i != j
      ensures Entries(p)[i] == Entries(s)[i]
    {
      assert p[24 * i..24 * i + 24] == s[24 * i..24 * i + 24];
    }
  }

  lemma ZeroSectorIsDead()
    ensures Entries(ZERO_SECTOR) == seq(21, _ => DEAD)
    ensures Table(ZERO_SECTOR) == seq(128, _ => 0)
  {
    forall j | 0 <= j < 21
      ensures Entries(ZERO_SECTOR)[j] == DEAD
    {
      EntryRoundTrip(DEAD);
      assert ZERO_SECTOR[24 * j..24 * j + 24] == EncEntry(DEAD);
    }
  }
}
