/** The on-disk inode table: 76-byte slots laid end to end across 512-byte sectors. */
module InodeTables {
  import opened Codec
  import opened Store

  const INODE_SIZE := 76
  const MAX_FILES := 4096

  /** Byte a of the disk. */
  function Byte(disk: seq<Sector>, a: nat): byte
    requires a < 512 * |disk|
  {
    disk[a / 512][a % 512]
  }

  /** The disk changed to `bytes` from byte a on, and nowhere else. */
  ghost predicate OnlyBytes(disk: seq<Sector>, disk': seq<Sector>, a: nat, bytes: seq<byte>) {
    && |disk'| == |disk| && a + |bytes| <= 512 * |disk|
    && forall x :: 0 <= x < 512 * |disk| ==>
         Byte(disk', x) == if a <= x < a + |bytes| then bytes[x - a] else Byte(disk, x)
  }

  /** The 13 block numbers as they lie in struct inode. */
  function SectorBytes(sec: seq<nat>): (b: seq<byte>)
    requires |sec| == 13 && forall k :: 0 <= k < 13 ==> sec[k] < WORD
    ensures |b| == 52
  {
    seq(52, x requires 0 <= x < 52 => Enc32(sec[x / 4])[x % 4])
  }

  predicate Fits(n: Inode) {
    n.no < WORD && n.size < WORD && forall k :: 0 <= k < 13 ==> n.sec[k] < WORD
  }

  /** The inode as inode_sync writes it: open_cnts, write_deny and the list links cleared; the
      three bytes of padding after write_deny are whatever they were in memory. */
  function InodeBytes(n: Inode, pad: seq<byte>): (b: seq<byte>)
    requires Fits(n) && |pad| == 3
    ensures |b| == INODE_SIZE
  {
    Enc32(n.no) + Enc32(n.size) + Enc32(0) + [0] + pad + SectorBytes(n.sec) + ZeroBytes(8)
  }

  function Decode(b: seq<byte>): Inode
    requires |b| == INODE_SIZE
  {
    InodeRec(Dec32(b[0..4]), Dec32(b[4..8]), seq(13, k requires 0 <= k < 13 => Dec32(b[16 + 4 * k..20 + 4 * k])))
  }

  lemma BytesParts(n: Inode, pad: seq<byte>)
    requires Fits(n) && |pad| == 3
    ensures var b := InodeBytes(n, pad);
            b[0..4] == Enc32(n.no) && b[4..8] == Enc32(n.size) && b[16..68] == SectorBytes(n.sec)
  {
    hide SectorBytes, Enc32, ZeroBytes;
    var head := Enc32(n.no) + Enc32(n.size) + Enc32(0) + [0] + pad;
    var b := InodeBytes(n, pad);
    assert |head| == 16;
    assert b == head + (SectorBytes(n.sec) + ZeroBytes(8));
  }

  lemma SectorsRoundTrip(b: seq<byte>, sec: seq<nat>, k: nat)
    requires |b| == INODE_SIZE && |sec| == 13 && forall x :: 0 <= x < 13 ==> sec[x] < WORD
    requires b[16..68] == SectorBytes(sec) && k < 13
    ensures Dec32(b[16 + 4 * k..20 + 4 * k]) == sec[k]
  {
    var w := b[16 + 4 * k..20 + 4 * k];
    forall q | 0 <= q < 4
      ensures w[q] == Enc32(sec[k])[q]
    {
      assert w[q] == b[16..68][4 * k + q];
    }
    assert w == Enc32(sec[k]);
    WordRoundTrip(sec[k]);
  }

  lemma InodeRoundTrip(n: Inode, pad: seq<byte>)
    requires Fits(n) && |pad| == 3
    ensures Decode(InodeBytes(n, pad)) == n
  {
    hide InodeBytes, SectorBytes, Dec32, Enc32;
    var b := InodeBytes(n, pad);
    BytesParts(n, pad);
    WordRoundTrip(n.no);
    WordRoundTrip(n.size);
    forall k | 0 <= k < 13
      ensures Dec32(b[16 + 4 * k..20 + 4 * k]) == n.sec[k]
    {
      SectorsRoundTrip(b, n.sec, k);
    }
    assert Decode(b).sec == n.sec;
  }

  /** The bytes of slot i of a table that starts at sector `lba`. */
  function Slot(disk: seq<Sector>, lba: nat, i: nat): (b: seq<byte>)
    requires i < MAX_FILES && lba + 608 <= |disk|
    ensures |b| == INODE_SIZE
  {
    seq<byte>(INODE_SIZE, k requires 0 <= k < INODE_SIZE => Byte(disk, 512 * lba + INODE_SIZE * i + k))
  }

  /** The inodes of the table: what the model of the mounted partition keeps as `itab`. */
  function Inodes(disk: seq<Sector>, lba: nat): (t: seq<Inode>)
    requires lba + 608 <= |disk|
    ensures |t| == MAX_FILES
  {
    seq(MAX_FILES, i requires 0 <= i < MAX_FILES => Decode(Slot(disk, lba, i)))
  }

  /** Bytes put in slot i are in slot i, and no other slot changes. */
  lemma SlotOnly(disk: seq<Sector>, disk': seq<Sector>, lba: nat, i: nat, bytes: seq<byte>)
    requires lba + 608 <= |disk| && i < MAX_FILES && |bytes| == INODE_SIZE
    requires OnlyBytes(disk, disk', 512 * lba + INODE_SIZE * i, bytes)
    ensures forall j :: 0 <= j < MAX_FILES ==> Slot(disk', lba, j) == if j == i then bytes else Slot(disk, lba, j)
    ensures Inodes(disk', lba) == Inodes(disk, lba)[i := Decode(bytes)]
  {
    forall j | 0 <= j < MAX_FILES
      ensures Slot(disk', lba, j) == if j == i then bytes else Slot(disk, lba, j)
    {
      forall k | 0 <= k < INODE_SIZE
        ensures Slot(disk', lba, j)[k] == (if j == i then bytes else Slot(disk, lba, j))[k]
      {
        var x := 512 * lba + INODE_SIZE * j + k;
        assert Byte(disk', x) == if j == i then bytes[k] else Byte(disk, x);
      }
    }
  }

  class InodeTable {
    var disk: seq<Sector>
    const lba: nat

    predicate Valid()
      reads this
    {
      lba + 608 <= |disk|
    }

    constructor (disk: seq<Sector>, lba: nat)
      requires lba + 608 <= |disk|
      ensures Valid() && this.disk == disk && this.lba == lba
    {
      this.disk := disk;
      this.lba := lba;
    }

    /** inode_locate: the slot's first sector, its offset there, and whether it ends in the next. */
    method Locate(no: nat) returns (twoSec: bool, sec: nat, off: nat)
      requires Valid() && no < MAX_FILES
      ensures 512 * sec + off == 512 * lba + INODE_SIZE * no && off < 512 && sec < |disk|
      ensures twoSec <==> off + INODE_SIZE > 512
      ensures twoSec ==> sec + 1 < |disk|
    {
      var offSize := no * INODE_SIZE;
      off := offSize % 512;
      sec := lba + offSize / 512;
      twoSec := 512 - off < INODE_SIZE;
    }

    /** Reading, changing and writing back the one or two sectors of a slot. */
    method Patch(twoSec: bool, sec: nat, off: nat, bytes: seq<byte>)
      requires |bytes| == INODE_SIZE && off < 512 && sec < |disk| && (twoSec <==> off + INODE_SIZE > 512)
      requires twoSec ==> sec + 1 < |disk|
      modifies this
      ensures OnlyBytes(old(disk), disk, 512 * sec + off, bytes)
    {
      if twoSec {
        var buf: seq<byte> := disk[sec][..] + disk[sec + 1][..];
        buf := buf[..off] + bytes + buf[off + INODE_SIZE..];
        disk := disk[sec := buf[..512]][sec + 1 := buf[512..]];
      } else {
        var buf: seq<byte> := disk[sec];
        disk := disk[sec := buf[..off] + bytes + buf[off + INODE_SIZE..]];
      }
      PatchedBytes(old(disk), disk, sec, off, bytes);
    }

    /** inode_sync: the slot it writes is that of the inode number's low 8 bits. */
    method Sync(n: Inode, pad: seq<byte>)
      requires Valid() && Fits(n) && |pad| == 3
      modifies this
      ensures Valid() && OnlyBytes(old(disk), disk, 512 * lba + INODE_SIZE * (n.no % 256), InodeBytes(n, pad))
      ensures Inodes(disk, lba) == Inodes(old(disk), lba)[n.no % 256 := n]
    {
      hide InodeBytes, Inodes, OnlyBytes, Decode;
      var no := n.no % 256;
      var twoSec, sec, off := Locate(no);
      Patch(twoSec, sec, off, InodeBytes(n, pad));
      SlotOnly(old(disk), disk, lba, no, InodeBytes(n, pad));
      InodeRoundTrip(n, pad);
    }

    /** The reading half of inode_open. */
    method Load(no: nat) returns (n: Inode)
      requires Valid() && no < MAX_FILES
      ensures n == Inodes(disk, lba)[no]
    {
      var twoSec, sec, off := Locate(no);
      var buf: seq<byte> := disk[sec] + if twoSec then disk[sec + 1] else [];
      ghost var slot := Slot(disk, lba, no);
      assert buf[off..off + INODE_SIZE] == slot by {
        forall k {:trigger slot[k]} | 0 <= k < INODE_SIZE
          ensures buf[off + k] == slot[k]
        {
          var a := 512 * sec + off + k;
          assert slot[k] == Byte(disk, a);
          assert if off + k < 512 then a / 512 == sec && a % 512 == off + k
                 else a / 512 == sec + 1 && a % 512 == off + k - 512;
        }
      }
      n := Decode(buf[off..off + INODE_SIZE]);
    }

    /** inode_delete, which does not narrow the number. */
    method Delete(no: nat)
      requires Valid() && no < MAX_FILES
      modifies this
      ensures Valid() && OnlyBytes(old(disk), disk, 512 * lba + INODE_SIZE * no, ZeroBytes(INODE_SIZE))
      ensures Inodes(disk, lba) == Inodes(old(disk), lba)[no := InodeRec(0, 0, seq(13, _ => 0))]
    {
      var twoSec, sec, off := Locate(no);
      Patch(twoSec, sec, off, ZeroBytes(INODE_SIZE));
      SlotOnly(old(disk), disk, lba, no, ZeroBytes(INODE_SIZE));
      DecodeZero();
    }
  }

  lemma DecodeZero()
    ensures Decode(ZeroBytes(INODE_SIZE)) == InodeRec(0, 0, seq(13, _ => 0))
  {
    assert Decode(ZeroBytes(INODE_SIZE)).sec == seq(13, _ => 0);
  }

  lemma PatchedBytes(disk: seq<Sector>, disk': seq<Sector>, sec: nat, off: nat, bytes: seq<byte>)
    requires |bytes| == INODE_SIZE && off < 512 && sec < |disk| && |disk'| == |disk|
    requires if off + INODE_SIZE > 512
             then sec + 1 < |disk|
                  && var buf: seq<byte> := disk[sec][..] + disk[sec + 1][..];
                     var buf' := buf[..off] + bytes + buf[off + INODE_SIZE..];
                     disk' == disk[sec := buf'[..512]][sec + 1 := buf'[512..]]
             else disk' == disk[sec := disk[sec][..off] + bytes + disk[sec][off + INODE_SIZE..]]
    ensures OnlyBytes(disk, disk', 512 * sec + off, bytes)
  {
    var a := 512 * sec + off;
    forall x | 0 <= x < 512 * |disk|
      ensures Byte(disk', x) == if a <= x < a + INODE_SIZE then bytes[x - a] else Byte(disk, x)
    {
      var q, r := x / 512, x % 512;
      assert x == 512 * q + r;
      if q == sec {
        assert disk'[q][r] == if off <= r < off + INODE_SIZE then bytes[r - off] else disk[q][r];
      } else if q == sec + 1 && off + INODE_SIZE > 512 {
        assert disk'[q][r] == if r + 512 < off + INODE_SIZE then bytes[r + 512 - off] else disk[q][r];
      } else {
        assert disk'[q] == disk[q];
      }
    }
  }

  /** inode_sync writes an inode's own slot, and no other's, exactly for numbers below 256. */
  lemma OwnSlotIff(t: seq<Inode>, n: Inode)
    requires |t| == MAX_FILES && n.no < MAX_FILES && t[n.no] != n
    ensures t[n.no % 256 := n][n.no] == n <==> n.no < 256
    ensures n.no >= 256 ==> t[n.no % 256 := n][n.no] == t[n.no] && t[n.no % 256 := n][n.no - 256 * (n.no / 256)] == n
  {}

  // ---- the table and the data blocks ----

  /** A write outside the table's sectors, such as one to a data block, changes no slot. */
  lemma DataKeepsTable(disk: seq<Sector>, disk': seq<Sector>, lba: nat)
    requires lba + 608 <= |disk| == |disk'| && forall x :: lba <= x < lba + 608 ==> disk'[x] == disk[x]
    ensures Inodes(disk', lba) == Inodes(disk, lba)
  {
    hide Decode;
    forall i | 0 <= i < MAX_FILES
      ensures Slot(disk', lba, i) == Slot(disk, lba, i)
    {
      forall k | 0 <= k < INODE_SIZE
        ensures Slot(disk', lba, i)[k] == Slot(disk, lba, i)[k]
      {
        SlotInTable(lba, i, k);
      }
    }
  }

  lemma SlotInTable(lba: nat, i: nat, k: nat)
    requires i < MAX_FILES && k < INODE_SIZE
    ensures lba <= (512 * lba + INODE_SIZE * i + k) / 512 < lba + 608
  {}

  /** A slot written changes no sector outside the table. */
  lemma SlotKeepsData(disk: seq<Sector>, disk': seq<Sector>, lba: nat, i: nat, bytes: seq<byte>)
    requires i < MAX_FILES && |bytes| == INODE_SIZE && lba + 608 <= |disk|
    requires OnlyBytes(disk, disk', 512 * lba + INODE_SIZE * i, bytes)
    ensures forall x :: 0 <= x < |disk| && !(lba <= x < lba + 608) ==> disk'[x] == disk[x]
  {
    forall x | 0 <= x < |disk| && !(lba <= x < lba + 608)
      ensures disk'[x] == disk[x]
    {
      forall r | 0 <= r < 512
        ensures disk'[x][r] == disk[x][r]
      {
        assert (512 * x + r) / 512 == x && (512 * x + r) % 512 == r;
        assert Byte(disk', 512 * x + r) == Byte(disk, 512 * x + r);
      }
    }
  }

  // ---- the open list ----

  /** open_inodes, front first: the number and the count of each inode on it. */
  datatype Cached = Cached(no: nat, cnt: nat)

  predicate Distinct(l: seq<Cached>) {
    forall a, b :: 0 <= a < b < |l| ==> l[a].no != l[b].no
  }

  /** inode_open on the list: the inode found is shared, another goes to the front. */
  method OpenOnList(l: seq<Cached>, no: nat) returns (l': seq<Cached>)
    requires Distinct(l)
    ensures Distinct(l')
    ensures forall c :: c in l' && c.no != no <==> c in l && c.no != no
    ensures (exists k :: 0 <= k < |l| && l[k].no == no && l' == l[k := Cached(no, l[k].cnt + 1)])
         || ((forall k :: 0 <= k < |l| ==> l[k].no != no) && l' == [Cached(no, 1)] + l)
  {
    var k := 0;
    while k < |l|
      invariant k <= |l| && forall x :: 0 <= x < k ==> l[x].no != no
    {
      if l[k].no == no {
        l' := l[k := Cached(no, l[k].cnt + 1)];
        forall c | c in l' && c.no != no
          ensures c in l
        {
          var x :| 0 <= x < |l'| && l'[x] == c;
          assert l[x] == c;
        }
        forall c | c in l && c.no != no
          ensures c in l'
        {
          var x :| 0 <= x < |l| && l[x] == c;
          assert l'[x] == c;
        }
        return;
      }
      k := k + 1;
    }
    l' := [Cached(no, 1)] + l;
  }

  /** file_create pushes its inode without looking for the number. The list keeps each number at
      most once exactly when the number was not on it. */
  lemma PushKeepsDistinct(l: seq<Cached>, no: nat)
    requires Distinct(l)
    ensures Distinct([Cached(no, 1)] + l) <==> forall k :: 0 <= k < |l| ==> l[k].no != no
  {
    var l' := [Cached(no, 1)] + l;
    assert forall k :: 0 <= k < |l| ==> l'[k + 1] == l[k];
    if exists k :: 0 <= k < |l| && l[k].no == no {
      var k :| 0 <= k < |l| && l[k].no == no;
      assert l'[0].no == l'[k + 1].no;
    }
  }
}
