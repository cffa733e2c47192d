/** partition_format: sizing the block bitmap, laying out the regions, and the first state. */
module Format {
  import opened Codec
  import opened Store
  import opened Directory
  import opened FileMoves
  import opened Tree
  import opened Consistency
  import opened Bitmap
  import InodeTables

  const BIT_PER_SECTOR := 4096
  const INODE_TABLE_SECTS := 608

  function RoundUp(x: nat, step: nat): nat
    requires step > 0
  {
    (x + step - 1) / step
  }

  // ---- the sizing loop ----

  /** One turn of the loop: the sectors needed to map what is left beside b bitmap sectors. */
  function NextSects(free: nat, b: nat): nat
    requires b <= free
  {
    RoundUp(free - b, BIT_PER_SECTOR)
  }

  /** A turn leaves the size as it is exactly when it is the one that fits. */
  lemma FixedIff(free: nat, b: nat)
    requires b <= free && free > 0
    ensures NextSects(free, b) == b <==> 4097 * (b - 1) + 1 < free <= 4097 * b
  {}

  lemma FitsOnce(free: nat)
    requires free >= 2 && free % 4097 != 1
    ensures var b := (free + 4096) / 4097;
            0 < b <= free && NextSects(free, b) == b
  {
    var q, r := free / 4097, free % 4097;
    assert free == 4097 * q + r;
    var b := (free + 4096) / 4097;
    assert b == if r == 0 then q else q + 1;
    FixedIff(free, b);
  }

  /** A smaller size needs more, and a size off by d gives one off by at most a 4096th of d. */
  lemma Nearer(free: nat, b: nat, best: nat)
    requires b <= free && best <= free && NextSects(free, best) == best
    ensures b >= best ==> best - RoundUp(b - best, 4096) <= NextSects(free, b) <= best
    ensures b <= best ==> best <= NextSects(free, b) <= best + RoundUp(best - b, 4096)
    ensures NextSects(free, b) <= RoundUp(free, 4096) <= free
  {}

  /** From one off, the second turn is there at the latest. */
  lemma OneOff(free: nat, b: nat, best: nat)
    requires b <= free && best <= free && NextSects(free, best) == best && (b == best + 1 || b + 1 == best)
    ensures var n := NextSects(free, b);
            n <= free && (n == best || (n != b && (n == best + 1 || n + 1 == best) && NextSects(free, n) == best))
  {}

  /** How far the loop is from its end. */
  function Distance(free: nat, b: nat, prev: nat): nat
    requires b <= free && free >= 2 && free % 4097 != 1
  {
    var best := (free + 4096) / 4097;
    if b == best then if prev == best then 0 else 1
    else if b == best + 1 || b + 1 == best then if NextSects(free, b) == best then 2 else 3
    else 4 + if b > best then b - best else best - b
  }

  lemma DistanceFalls(free: nat, b: nat, prev: nat)
    requires b <= free && free >= 2 && free % 4097 != 1 && b != prev
    ensures NextSects(free, b) <= free && Distance(free, NextSects(free, b), b) < Distance(free, b, prev)
  {
    hide NextSects;
    var best := (free + 4096) / 4097;
    FitsOnce(free);
    Nearer(free, b, best);
    if b == best + 1 || b + 1 == best {
      OneOff(free, b, best);
    }
  }

  /** The loop of partition_format that sizes the block bitmap. It ends, and the bitmap covers
      exactly the blocks that are left. */
  method SizeBitmap(free: nat) returns (sects: nat, bits: nat)
    requires free >= 2 && free % 4097 != 1
    ensures sects == (free + 4096) / 4097 && 0 < sects && bits + sects == free && sects == RoundUp(bits, BIT_PER_SECTOR)
  {
    hide Distance;
    var prev: nat := 0;
    sects := RoundUp(free, BIT_PER_SECTOR);
    bits := 0;
    while sects != prev
      invariant sects <= free && prev <= free
      invariant (prev == 0 && sects > 0) || (bits == free - prev && sects == NextSects(free, prev))
      decreases Distance(free, sects, prev)
    {
      DistanceFalls(free, sects, prev);
      prev := sects;
      bits := free - sects;
      sects := RoundUp(bits, BIT_PER_SECTOR);
    }
    FixedIff(free, sects);
  }

  /** Sizes in the order the loop tries them. */
  function Tried(free: nat, n: nat): (b: nat)
    requires free > 0
    ensures b <= free
  {
    if n == 0 then RoundUp(free, BIT_PER_SECTOR) else NextSects(free, Tried(free, n - 1))
  }

  /** With one sector more than a multiple of 4097, two sizes take turns for ever: the loop ends
      for exactly the other counts. */
  lemma {:induction false} NeverSettles(free: nat, n: nat)
    requires free % 4097 == 1
    ensures Tried(free, 0) != 0 && Tried(free, n + 1) != Tried(free, n)
  {
    var b := Tried(free, n);
    FixedIff(free, b);
    assert free == 4097 * (free / 4097) + 1;
  }

  // ---- the bitmap ----

  predicate BitAt(b: seq<bv8>, k: nat)
    requires k < 8 * |b|
  {
    BitOf(b[k / 8], k % 8)
  }

  /** memset(&buf[from], 0xff, n). */
  method SetBytes(buf: array<bv8>, from: nat, n: nat)
    requires from + n <= buf.Length
    modifies buf
    ensures forall i :: 0 <= i < buf.Length ==> buf[i] == if from <= i < from + n then 0xff else old(buf[i])
  {
    var i := from;
    while i < from + n
      invariant from <= i <= from + n
      invariant forall x :: 0 <= x < buf.Length ==> buf[x] == if from <= x < i then 0xff else old(buf[x])
    {
      buf[i] := 0xff;
      i := i + 1;
    }
  }

  /** The bits that partition_format leaves set: the root directory's, unless the partition is so
      small that the padding of byte 0 clears it again, and all padding. */
  ghost predicate OnlyRootAndPadding(b: seq<bv8>, sects: nat, bits: nat) {
    && 512 * sects <= |b|
    && forall k :: 0 <= k < BIT_PER_SECTOR * sects ==> (BitAt(b, k) <==> k >= bits || (k == 0 && bits >= 8))
  }

  /** Filling in the block bitmap. The memset after the last mapped byte stays inside the buffer
      unless the bitmap needs the whole of it. */
  method FillBitmap(buf: array<bv8>, sects: nat, bits: nat)
    requires bits > 0 && sects == RoundUp(bits, BIT_PER_SECTOR)
    requires buf.Length == 512 * (if sects >= INODE_TABLE_SECTS then sects else INODE_TABLE_SECTS)
    requires sects < INODE_TABLE_SECTS || bits % BIT_PER_SECTOR != 0
    requires forall i :: 0 <= i < buf.Length ==> buf[i] == 0
    modifies buf
    ensures OnlyRootAndPadding(buf[..], sects, bits)
  {
    hide BitOf, PutBit;
    buf[0] := PutBit(buf[0], 0, true);
    ghost var b0 := buf[0];
    var lastByte := bits / 8;
    var lastBit := bits % 8;
    LastBytes(sects, bits);
    ByteBits();
    SetBytes(buf, lastByte, 512 - lastByte % 512);
    ghost var was := buf[..];
    var k := 0;
    while k < lastBit
      invariant k <= lastBit
      invariant forall i :: 0 <= i < buf.Length && i != lastByte ==> buf[i] == was[i]
      invariant forall j :: 0 <= j < 8 ==> BitOf(buf[lastByte], j) == (j >= k)
    {
      buf[lastByte] := PutBit(buf[lastByte], k, false);
      k := k + 1;
    }
    Filled(was, buf[..], b0, sects, bits);
  }

  lemma LastBytes(sects: nat, bits: nat)
    requires bits > 0 && sects == RoundUp(bits, BIT_PER_SECTOR)
    ensures var last := bits / 8;
            && last + (512 - last % 512) == (if bits % BIT_PER_SECTOR == 0 then 512 * sects + 512 else 512 * sects)
            && (bits % BIT_PER_SECTOR != 0 ==> last < 512 * sects)
            && (bits % BIT_PER_SECTOR == 0 ==> last == 512 * sects)
  {
    var q, r := bits / 4096, bits % 4096;
    assert bits == 4096 * q + r;
    assert bits / 8 == 512 * q + r / 8;
    if r == 0 {
      assert sects == q;
    } else {
      assert sects == q + 1 && r / 8 < 512;
    }
  }

  lemma ByteBits()
    ensures forall j :: 0 <= j < 8 ==> BitOf(0xff, j) && !BitOf(0, j)
  {
    FullByte(0xff);
  }

  lemma Filled(was: seq<bv8>, b: seq<bv8>, b0: bv8, sects: nat, bits: nat)
    requires bits > 0 && sects == RoundUp(bits, BIT_PER_SECTOR) && |b| == |was| && 512 * sects <= |was|
    requires bits / 8 < |was|
    requires forall j :: 0 <= j < 8 ==> BitOf(b0, j) == (j == 0)
    requires forall i :: 0 <= i < 512 * sects ==> was[i] == (if bits / 8 <= i then 0xff else if i == 0 then b0 else 0)
    requires forall i :: 0 <= i < |b| && i != bits / 8 ==> b[i] == was[i]
    requires forall j :: 0 <= j < 8 ==> BitOf(b[bits / 8], j) == (j >= bits % 8)
    ensures OnlyRootAndPadding(b, sects, bits)
  {
    hide BitOf;
    LastBytes(sects, bits);
    ByteBits();
    forall k | 0 <= k < BIT_PER_SECTOR * sects
      ensures BitAt(b, k) <==> k >= bits || (k == 0 && bits >= 8)
    {
      var i, j := k / 8, k % 8;
      assert k == 8 * i + j;
    }
  }

  // ---- the layout ----

  datatype SuperBlock = SuperBlock(
    base: nat, cnt: nat, blockBitmap: nat, blockBitmapSects: nat, inodeBitmap: nat, inodeBitmapSects: nat,
    inodeTable: nat, inodeTableSects: nat, dataStart: nat)

  /** The super block that partition_format fills in. */
  function Layout(base: nat, cnt: nat, sects: nat): SuperBlock {
    SuperBlock(base, cnt, base + 2, sects, base + 2 + sects, 1, base + 3 + sects, INODE_TABLE_SECTS,
               base + 3 + sects + INODE_TABLE_SECTS)
  }

  /** Which region sector x belongs to: boot, super block, block bitmap, inode bitmap, inode table
      and data. */
  predicate InRegion(sb: SuperBlock, bits: nat, r: nat, x: nat) {
    || (r == 0 && x == sb.base)
    || (r == 1 && x == sb.base + 1)
    || (r == 2 && sb.blockBitmap <= x < sb.blockBitmap + sb.blockBitmapSects)
    || (r == 3 && sb.inodeBitmap <= x < sb.inodeBitmap + sb.inodeBitmapSects)
    || (r == 4 && sb.inodeTable <= x < sb.inodeTable + sb.inodeTableSects)
    || (r == 5 && sb.dataStart <= x < sb.dataStart + bits)
  }

  ghost predicate InSomeRegion(sb: SuperBlock, bits: nat, x: nat) {
    exists r: nat :: InRegion(sb, bits, r, x)
  }

  /** The regions tile the partition: each of its sectors is in exactly one, and no other sector
      is in any. The bitmap has a bit for each data sector, and less than a sector to spare. */
  lemma RegionsTile(base: nat, cnt: nat, sects: nat, bits: nat)
    requires cnt >= 611 && sects + bits == cnt - 611 && sects == RoundUp(bits, BIT_PER_SECTOR)
    ensures var sb := Layout(base, cnt, sects);
            && (forall x: nat :: InSomeRegion(sb, bits, x) <==> base <= x < base + cnt)
            && (forall x: nat, r: nat, q: nat :: InRegion(sb, bits, r, x) && InRegion(sb, bits, q, x) ==> r == q)
    ensures bits <= BIT_PER_SECTOR * sects < bits + BIT_PER_SECTOR
  {
    var sb := Layout(base, cnt, sects);
    forall x: nat
      ensures InSomeRegion(sb, bits, x) <==> base <= x < base + cnt
    {
      var r: nat := if x == base then 0 else if x == base + 1 then 1 else if x < sb.inodeBitmap then 2
                    else if x < sb.inodeTable then 3 else if x < sb.dataStart then 4 else 5;
      assert base <= x < base + cnt ==> InRegion(sb, bits, r, x);
    }
  }

  // ---- the first state ----

  /** The partition as it is mounted right after it was formatted, with the root directory open. */
  function FirstState(ds: nat, disk: seq<Sector>, bb: seq<bool>, ib: seq<bool>, itab: seq<Inode>): Fs
    requires |itab| > 0
  {
    Fs(ds, disk, bb, ib, itab, map[0 := MemInode(itab[0], 1, false)], seq(32, _ => Closed),
       {0}, map[ds := (0, 0)], {0}, map[])
  }

  /** What partition_format writes. */
  ghost predicate Formatted(ds: nat, disk: seq<Sector>, bb: seq<bool>, ib: seq<bool>, itab: seq<Inode>) {
    && 0 < ds && ds + 8 <= |disk| <= WORD && |disk| <= ds + |bb|
    && (forall k :: 0 <= k < |bb| ==> bb[k] == (k == 0 || k >= |disk| - ds))
    && |ib| == 4096 && (forall k :: 0 <= k < 4096 ==> ib[k] == (k == 0))
    && |itab| == 4096 && itab[0] == NewDirInode(0, ds) && disk[ds] == DotsSector(0, 0)
  }

  lemma FirstOwned(ds: nat, disk: seq<Sector>, bb: seq<bool>, ib: seq<bool>, itab: seq<Inode>)
    requires Formatted(ds, disk, bb, ib, itab)
    ensures var s := FirstState(ds, disk, bb, ib, itab);
            && Owned(s) && Leaked(s) == {} && DirOk(V(s, 0)) && Newborn(Slots(V(s, 0)), 0, 0)
  {
    hide ViewOf, DotsSector, Slots, DirOk, NewDirInode, Newborn;
    var s := FirstState(ds, disk, bb, ib, itab);
    NewDirView(disk, 0, ds, 0);
    var v := V(s, 0);
    NewDirSlots(v, 0, ds, 0);
    NewDirOk(v, 0, ds, 0);
    var vs := Views(s);
    assert vs[0] == v;
    forall i, k {:trigger Ref(vs[i], k)} | i in vs && 0 <= k <= 140 && Ref(vs[i], k) != 0
      ensures Ref(vs[i], k) in s.own && s.own[Ref(vs[i], k)] == (i, k)
    {
      assert i == 0;
      assert k != 140;
      assert v.ab[k] == if k == 0 then ds else 0;
    }
    assert Ref(vs[0], 0) == ds;
    assert forall b :: s.ds <= b < s.ds + |bb| ==> Bit(s, b) == (b == ds || b >= |disk|);
  }

  lemma FirstTree(u: seq<DirEntry>)
    requires Newborn(u, 0, 0)
    ensures TreeOk(map[0 := u], {0}, map[])
  {
    assert Graded(map[], map[0 := 0]);
  }

  lemma FirstOpen(ds: nat, disk: seq<Sector>, bb: seq<bool>, ib: seq<bool>, itab: seq<Inode>)
    requires Formatted(ds, disk, bb, ib, itab)
    ensures OpenOk(FirstState(ds, disk, bb, ib, itab)) && Numbered(FirstState(ds, disk, bb, ib, itab))
  {
    hide DotsSector;
    var s := FirstState(ds, disk, bb, ib, itab);
    OpensNone(s.files, 0);
  }

  /** The invariant that every file-system call keeps holds at the start: nothing but an empty root
      directory, and no block lost. */
  lemma FirstInv(ds: nat, disk: seq<Sector>, bb: seq<bool>, ib: seq<bool>, itab: seq<Inode>)
    requires Formatted(ds, disk, bb, ib, itab)
    ensures var s := FirstState(ds, disk, bb, ib, itab);
            Inv(s) && Leaked(s) == {} && s.dirs == {0} && Newborn(Slots(V(s, 0)), 0, 0)
  {
    hide V, Owned, DirOk, Newborn, Slots, OpenOk, Numbered, TreeOk, Leaked, DotsSector, NewDirInode;
    var s := FirstState(ds, disk, bb, ib, itab);
    FirstOwned(ds, disk, bb, ib, itab);
    FirstTree(Slots(V(s, 0)));
    FirstOpen(ds, disk, bb, ib, itab);
    assert Tables(s) == map[0 := Slots(V(s, 0))];
  }

  /** The first sector of the new inode table: the root directory's inode and zeros. */
  function FirstTableSector(ds: nat): Sector
    requires ds < WORD
  {
    InodeTables.InodeBytes(NewDirInode(0, ds), [0, 0, 0]) + ZeroBytes(436)
  }

  lemma FirstSlot(disk: seq<Sector>, lba: nat, ds: nat)
    requires lba + 608 <= |disk| && ds < WORD && disk[lba] == FirstTableSector(ds)
    ensures InodeTables.Inodes(disk, lba)[0] == NewDirInode(0, ds)
  {
    hide InodeTables.InodeBytes, InodeTables.Decode;
    var n := NewDirInode(0, ds);
    var bytes := InodeTables.InodeBytes(n, [0, 0, 0]);
    var slot := InodeTables.Slot(disk, lba, 0);
    forall k | 0 <= k < 76
      ensures slot[k] == bytes[k]
    {
      assert (512 * lba + k) / 512 == lba && (512 * lba + k) % 512 == k;
      assert FirstTableSector(ds)[k] == bytes[k];
      assert slot[k] == InodeTables.Byte(disk, 512 * lba + k);
    }
    assert slot == bytes;
    InodeTables.InodeRoundTrip(n, [0, 0, 0]);
  }

  /** The buffer is too small for the padding only when the bitmap fills it to the last bit. */
  lemma BufferHolds(free: nat, sects: nat, bits: nat)
    requires bits + sects == free && sects == RoundUp(bits, BIT_PER_SECTOR) && free % 4097 != 1
    ensures free <= 4097 * 607 || free % 4097 != 0 <==> sects < INODE_TABLE_SECTS || bits % BIT_PER_SECTOR != 0
  {
    var q, r := bits / 4096, bits % 4096;
    assert bits == 4096 * q + r;
    if r == 0 {
      assert sects == q && free == 4097 * q;
    } else {
      assert sects == q + 1 && free == 4097 * q + (r + 1);
      assert free % 4097 == (r + 1) % 4097;
    }
  }

  /** partition_format, and what mounting the partition then reads back. The two bitmaps are
      returned as bits; the other sectors are written to the disk. */
  method PartitionFormat(disk: seq<Sector>, base: nat, cnt: nat)
    returns (sb: SuperBlock, disk': seq<Sector>, bb: seq<bool>, ib: seq<bool>)
    requires 613 <= cnt && base + cnt == |disk| <= WORD && (cnt - 611) % 4097 != 1
    requires cnt - 611 <= 4097 * 607 || (cnt - 611) % 4097 != 0
    ensures sb == Layout(base, cnt, sb.blockBitmapSects) && |bb| == BIT_PER_SECTOR * sb.blockBitmapSects
    ensures |disk'| == |disk| && sb.inodeTable + 608 == sb.dataStart < |disk|
    ensures sb.dataStart + 8 <= |disk| ==>
              Formatted(sb.dataStart, disk', bb, ib, InodeTables.Inodes(disk', sb.inodeTable))
    ensures disk'[sb.inodeTable] == FirstTableSector(sb.dataStart)
    ensures forall x :: sb.inodeTable < x < sb.dataStart ==> disk'[x] == ZERO_SECTOR
    ensures forall x :: 0 <= x < |disk| && !(sb.inodeTable <= x <= sb.dataStart) ==> disk'[x] == disk[x]
  {
    hide InodeTables.Inodes, FirstTableSector, DotsSector, OnlyRootAndPadding, BitAt, NewDirInode;
    var sects, bits := SizeBitmap(cnt - 611);
    sb := Layout(base, cnt, sects);
    BufferHolds(cnt - 611, sects, bits);
    var buf := new bv8[512 * (if sects >= INODE_TABLE_SECTS then sects else INODE_TABLE_SECTS)](_ => 0);
    FillBitmap(buf, sects, bits);
    bb := ReadBits(buf[..], BIT_PER_SECTOR * sects, sects, bits);
    ib := [true] + seq(4095, _ => false);
    disk' := disk[sb.inodeTable := FirstTableSector(sb.dataStart)];
    var x := sb.inodeTable + 1;
    while x < sb.dataStart
      invariant sb.inodeTable < x <= sb.dataStart && |disk'| == |disk|
      invariant disk'[sb.inodeTable] == FirstTableSector(sb.dataStart)
      invariant forall y :: sb.inodeTable < y < x ==> disk'[y] == ZERO_SECTOR
      invariant forall y :: 0 <= y < |disk| && !(sb.inodeTable <= y < x) ==> disk'[y] == disk[y]
    {
      disk' := disk'[x := ZERO_SECTOR];
      x := x + 1;
    }
    disk' := disk'[sb.dataStart := DotsSector(0, 0)];
    FirstSlot(disk', sb.inodeTable, sb.dataStart);
  }

  /** The bitmap as it is read back at mount time. */
  method ReadBits(bytes: seq<bv8>, n: nat, ghost sects: nat, ghost bits: nat) returns (b: seq<bool>)
    requires OnlyRootAndPadding(bytes, sects, bits) && n == BIT_PER_SECTOR * sects
    ensures |b| == n && forall k :: 0 <= k < n ==> b[k] == (k >= bits || (k == 0 && bits >= 8))
  {
    hide BitOf;
    b := seq(n, k requires 0 <= k < n => BitOf(bytes[k / 8], k % 8));
    forall k | 0 <= k < n
      ensures b[k] == BitAt(bytes, k)
    {}
  }
}
