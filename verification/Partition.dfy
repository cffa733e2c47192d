/** cur_part with its disk, its two in-memory bitmaps, its open inodes and file_table, and the
    functions of fs/file.c, fs/dir.c and fs/inode.c that change them. */
module Partitions {
  import opened Codec
  import opened Bitmap
  import opened Store
  import opened Moves
  import opened Directory
  import opened DirMoves
  import opened FileMoves
  import opened Tree
  import opened Consistency
  import opened Room
  import opened FdTables
  import opened Steps

  class Partition {
    const ds: nat
    var disk: seq<Sector>
    var bb: seq<bool>
    var ib: seq<bool>
    var itab: seq<Inode>
    var mem: map<nat, MemInode>
    var files: seq<OpenFile>
    /** fd_table of the running process. */
    var fds: FdTable
    ghost var nodes: set<nat>
    ghost var own: map<nat, (nat, nat)>
    ghost var dirs: set<nat>
    ghost var par: map<nat, (nat, nat)>

    ghost function S(): Fs
      reads this
    {
      Fs(ds, disk, bb, ib, itab, mem, files, nodes, own, dirs, par)
    }

    /** block_bitmap_alloc: the lowest free block, or -1 with nothing changed. */
    method BlockBitmapAlloc() returns (lba: int)
      modifies this`bb
      ensures BlockAllocated(old(S()), S(), lba)
    {
      var i := FirstClear(bb);
      if i == -1 {
        return -1;
      }
      bb := bb[i := true];
      return ds + i;
    }

    /** The block-list loading that every function on an inode starts with. */
    method LoadBlocks(d: nat) returns (ab: seq<nat>)
      requires d in mem
      ensures ab == V(S(), d).ab
      ensures forall k :: 0 <= k < 140 && ab[k] != 0 ==> At(disk, ab[k]) == V(S(), d).body[k]
    {
      var sec := mem[d].node.sec;
      ab := seq(140, _ => 0);
      var i := 0;
      while i < 12
        invariant i <= 12 && |ab| == 140
        invariant ab == sec[..i] + seq(140 - i, _ => 0)
      {
        ab := ab[i := sec[i]];
        i := i + 1;
      }
      if sec[12] != 0 {
        ab := ab[..12] + Table(At(disk, sec[12]));
      }
    }

    /** search_dir_entry: the first slot whose name matches. */
    method SearchDirEntry(d: nat, name: seq<byte>) returns (found: bool, e: DirEntry, ghost c: nat)
      requires d in mem && name != []
      ensures found ==> c < 2940 && e == Slots(V(S(), d))[c] && e.name == name
      ensures !found ==> forall x :: 0 <= x < 2940 ==> Slots(V(S(), d))[x].name != name
    {
      hide V, Slots;
      ghost var v := V(S(), d);
      var ab := LoadBlocks(d);
      var k := 0;
      e, c := DEAD, 0;
      while k < 140
        invariant k <= 140
        invariant forall l, j :: 0 <= l < k && 0 <= j < 21 ==> Block(v, l)[j].name != name
      {
        if ab[k] != 0 {
          var buf := Entries(At(disk, ab[k]));
          var j := 0;
          while j < 21
            invariant j <= 21
            invariant forall i :: 0 <= i < j ==> buf[i].name != name
          {
            if buf[j].name == name {
              SlotOfBlock(v, k, j);
              return true, buf[j], 21 * k + j;
            }
            j := j + 1;
          }
        }
        k := k + 1;
      }
      found := false;
      forall x | 0 <= x < 2940
        ensures Slots(v)[x].name != name
      {
        BlockOfSlot(v, x);
      }
    }

    /** The branch of sync_dir_entry that found entry j of block k dead. */
    method PutInBlock(d: nat, k: nat, j: nat, lba: nat, buf: Sector, e: DirEntry)
      requires Owned(S()) && d in nodes && d in mem && k < 140 && j < 21 && Storable(e)
      requires lba == V(S(), d).ab[k] != 0 && buf == At(disk, lba)
      modifies this`disk, this`mem
      ensures PutInPlace(old(S()), S(), d, k, j, e, old(V(S(), d)).size + 24)
    {
      hide V, Owned, PutInPlace, PutEntry, At, Storable;
      ghost var s := S();
      HeadOfView(s, d);
      OwnerOf(s, d, k);
      disk := disk[lba := PutEntry(buf, j, e)];
      mem := mem[d := mem[d].(node := mem[d].node.(size := mem[d].node.size + 24))];
      BlockPut(s, S(), d, k, j, lba, e);
    }

    /** The branch of sync_dir_entry for a missing direct block. */
    method PutInDirectBlock(d: nat, k: nat, e: DirEntry) returns (ok: bool)
      requires Owned(S()) && d in nodes && d in mem && k < 12 && Storable(e) && V(S(), d).ab[k] == 0
      modifies this`disk, this`mem, this`bb, this`own
      ensures ok <==> |FreeBlocks(old(S()))| >= 1
      ensures ok ==> PutInNew(old(S()), S(), d, k, e)
      ensures !ok ==> S() == old(S())
    {
      hide V, OwnedBy, Marked, PutInNew, PutEntry, BlockAllocated, Storable, Geometry, FreeBlocks;
      ghost var s := S();
      var node := mem[d].node;
      var lba := BlockBitmapAlloc();
      AllocCounts(s, S(), lba);
      if lba == -1 {
        NoneAllocated(s, S());
        return false;
      }
      LowestFree(s, S(), lba);
      NewDirectOk(s, d, k, lba, e);
      node := node.(sec := node.sec[k := lba]);
      disk := disk[lba := PutEntry(ZERO_SECTOR, 0, e)];
      mem := mem[d := mem[d].(node := node.(size := node.size + 24))];
      own := own + map[lba := (d, k)];
      assert S() == NewDirect(s, d, k, lba, e);
      ok := true;
    }

    /** The two allocations for block 12, table first; if the second fails the first is undone
        and the table pointer is cleared. */
    method AllocTableAndBlock(d: nat) returns (tab: int, lba: int)
      requires Owned(S()) && d in mem
      modifies this`mem, this`bb
      ensures lba != -1 <==> |FreeBlocks(old(S()))| >= 2
      ensures lba == -1 && old(mem)[d].node.sec[12] == 0 ==> S() == old(S())
      ensures lba != -1 ==> TwoAllocated(old(S()), S(), tab, lba)
    {
      hide OwnedBy, Marked, BlockAllocated, Geometry, FreeBlocks;
      ghost var s := S();
      var node := mem[d].node;
      tab := BlockBitmapAlloc();
      AllocCounts(s, S(), tab);
      if tab == -1 {
        NoneAllocated(s, S());
        return -1, -1;
      }
      ghost var s1 := S();
      Unallocate(s, s1, tab);
      lba := BlockBitmapAlloc();
      AllocCounts(s1, S(), lba);
      if lba == -1 {
        NoneAllocated(s1, S());
        bb := bb[tab - ds := false];
        mem := mem[d := mem[d].(node := node.(sec := node.sec[12 := 0]))];
        assert node.sec[12] == 0 ==> node.sec[12 := 0] == node.sec;
        return;
      }
      TwoFree(s, s1, S(), tab, lba);
    }

    /** The branch of sync_dir_entry for block 12: a table is made along with the block. A table
        that is there although block 12 is not is replaced, and its block is lost. */
    method PutInTableBlock(d: nat, ab: seq<nat>, e: DirEntry) returns (ok: bool)
      requires Owned(S()) && d in nodes && d in mem && Storable(e) && ab == V(S(), d).ab && ab[12] == 0
      modifies this`disk, this`mem, this`bb, this`own
      ensures ok <==> |FreeBlocks(old(S()))| >= 2
      ensures ok ==> PutInNew(old(S()), S(), d, 12, e)
      ensures !ok && old(V(S(), d)).tab == 0 ==> S() == old(S())
    {
      hide V, Owned, PutInNew, PutEntry, EncTable, TwoAllocated, Storable, Replaced, FreeBlock, Bit, FreeBlocks;
      ghost var s := S();
      var node := mem[d].node;
      BlocksAreWords(s, d);
      HeadOfView(s, d);
      var tab, lba := AllocTableAndBlock(d);
      if lba == -1 {
        return false;
      }
      TwoAllocatedFree(s, S(), tab, lba);
      ghost var added: map<nat, (nat, nat)> := map[tab := (d, 140), lba := (d, 12)];
      disk := disk[tab := EncTable(ab[12..][0 := lba])];
      disk := disk[lba := PutEntry(ZERO_SECTOR, 0, e)];
      mem := mem[d := mem[d].(node := node.(sec := node.sec[12 := tab], size := node.size + 24))];
      own := (own - Replaced(V(s, d).tab, tab)) + added;
      IndirectPut(s, S(), d, 12, tab, lba, e, added);
      ok := true;
    }

    /** The branch of sync_dir_entry for a later indirect block. */
    method PutInIndirectBlock(d: nat, k: nat, ab: seq<nat>, e: DirEntry) returns (ok: bool)
      requires Owned(S()) && d in nodes && d in mem && 12 < k < 140 && Storable(e)
      requires ab == V(S(), d).ab && ab[k] == 0 && V(S(), d).tab != 0
      modifies this`disk, this`mem, this`bb, this`own
      ensures ok <==> |FreeBlocks(old(S()))| >= 1
      ensures ok ==> PutInNew(old(S()), S(), d, k, e)
      ensures !ok ==> S() == old(S())
    {
      hide V, OwnedBy, Marked, PutInNew, PutEntry, EncTable, BlockAllocated, Storable, Replaced, FreeBlock, Bit,
           FreeBlocks,
           Geometry;
      ghost var s := S();
      var node := mem[d].node;
      BlocksAreWords(s, d);
      HeadOfView(s, d);
      OwnerOf(s, d, 140);
      var lba := BlockBitmapAlloc();
      AllocCounts(s, S(), lba);
      if lba == -1 {
        NoneAllocated(s, S());
        return false;
      }
      LowestFree(s, S(), lba);
      var tab := node.sec[12];
      ghost var added: map<nat, (nat, nat)> := map[lba := (d, k)];
      disk := disk[tab := EncTable(ab[12..][k - 12 := lba])];
      disk := disk[lba := PutEntry(ZERO_SECTOR, 0, e)];
      assert node.sec[12 := tab] == node.sec;
      mem := mem[d := mem[d].(node := node.(size := node.size + 24))];
      own := (own - Replaced(V(s, d).tab, tab)) + added;
      IndirectPut(s, S(), d, k, tab, lba, e, added);
      ok := true;
    }

    /** sync_dir_entry: entry e goes into the lowest dead slot of directory d. It fails exactly when
        there is no dead slot, or too few blocks are free for the one there is. */
    method SyncDirEntry(d: nat, e: DirEntry) returns (ok: bool, ghost c: nat)
      requires Owned(S()) && d in nodes && d in mem && Storable(e)
      requires DirShape(V(S(), d))
      modifies this`disk, this`mem, this`bb, this`own
      ensures ok <==> FirstDead(Slots(old(V(S(), d)))) < 2940 && |FreeBlocks(old(S()))| >= EntryNeed(old(V(S(), d)))
      ensures ok ==> EntrySynced(old(S()), S(), d, c, e)
      ensures !ok && (old(V(S(), d)).tab == 0 || old(V(S(), d)).ab[12] != 0) ==> S() == old(S())
    {
      hide V, Owned, PutInNew, PutInPlace, PutEntry, Slots, DirShape, EntryNeed, FirstDead, FreeBlocks;
      ghost var s := S();
      ghost var v := V(s, d);
      var ab := LoadBlocks(d);
      var k := 0;
      c := 0;
      while k < 140
        invariant k <= 140 && S() == s
        invariant forall l, j :: 0 <= l < k && 0 <= j < 21 ==> Live(Block(v, l)[j])
        invariant forall l :: 0 <= l < k ==> ab[l] != 0
      {
        if ab[k] == 0 {
          c := 21 * k;
          StopsAtNew(v, k);
          if k < 12 {
            ok := PutInDirectBlock(d, k, e);
          } else if k == 12 {
            ok := PutInTableBlock(d, ab, e);
          } else {
            TableIsThere(v, 12);
            ok := PutInIndirectBlock(d, k, ab, e);
          }
          if ok {
            NewIsSynced(s, S(), d, k, e);
          }
          return;
        }
        var buf := At(disk, ab[k]);
        var j := 0;
        while j < 21
          invariant j <= 21 && S() == s
          invariant forall i :: 0 <= i < j ==> Live(Entries(buf)[i])
        {
          if Entries(buf)[j].ftype == 0 {
            c := 21 * k + j;
            if k >= 12 {
              TableIsThere(v, k);
            }
            StopsInBlock(v, k, j);
            PutInBlock(d, k, j, ab[k], buf, e);
            InPlaceIsSynced(s, S(), d, k, j, e);
            return true, c;
          }
          j := j + 1;
        }
        k := k + 1;
      }
      StopsNowhere(v);
      ok := false;
    }

    /** bitmap_set on the block bitmap: block lba is free. */
    method FreeBlockBit(lba: nat)
      requires ds <= lba < ds + |bb|
      modifies this`bb
      ensures |bb| == |old(bb)| && bb == old(bb)[lba - ds := false]
    {
      bb := bb[lba - ds := false];
    }

    /** The entry loop of delete_dir_entry over one block: how many entries count, whether "." is
        among them, and where the entry with this inode number is. */
    method CountBlock(buf: seq<DirEntry>, ino: nat) returns (cnt: nat, first: bool, found: int)
      requires |buf| == 21
      requires OneIno(buf, ino)
      ensures cnt == |Counted(buf, 21)|
      ensures first <==> exists i :: 0 <= i < 21 && Live(buf[i]) && buf[i].name == DOT
      ensures found == -1 ==> forall i :: 0 <= i < 21 && Counts(buf[i]) ==> buf[i].ino != ino
      ensures found != -1 ==> 0 <= found < 21 && Counts(buf[found]) && buf[found].ino == ino
    {
      cnt, first, found := 0, false, -1;
      var j := 0;
      while j < 21
        invariant j <= 21
        invariant cnt == |Counted(buf, j)|
        invariant first <==> exists i :: 0 <= i < j && Live(buf[i]) && buf[i].name == DOT
        invariant found == -1 ==> forall i :: 0 <= i < j && Counts(buf[i]) ==> buf[i].ino != ino
        invariant found != -1 ==> 0 <= found < j && Counts(buf[found]) && buf[found].ino == ino
      {
        CountedStep(buf, j);
        if buf[j].ftype != 0 {
          if buf[j].name == DOT {
            first := true;
          } else if buf[j].name != DOT && buf[j].name != DOTDOT {
            cnt := cnt + 1;
            if buf[j].ino == ino {
              assert found == -1;
              found := j;
            }
          }
        }
        j := j + 1;
      }
    }

    /** The tail of delete_dir_entry when the block keeps other entries or is the first. */
    method KillEntry(d: nat, k: nat, j: nat, lba: nat, buf: Sector)
      requires Owned(S()) && d in nodes && d in mem && k < 140 && j < 21
      requires lba == V(S(), d).ab[k] != 0 && buf == At(disk, lba) && mem[d].node.size >= 24
      modifies this`disk, this`mem
      ensures PutInPlace(old(S()), S(), d, k, j, DEAD, old(mem)[d].node.size - 24)
    {
      hide V, Owned, PutInPlace, PutEntry, At;
      RewriteEntry(S(), d, k, j, DEAD, mem[d].node.size - 24);
      ghost var s' := EntryRewritten(S(), d, k, j, DEAD, mem[d].node.size - 24);
      disk := disk[lba := PutEntry(buf, j, DEAD)];
      mem := mem[d := mem[d].(node := mem[d].node.(size := mem[d].node.size - 24))];
      assert S() == s';
    }

    /** The tail of delete_dir_entry when a direct block goes. */
    method DropDirectBlock(d: nat, k: nat, ghost j: nat, lba: nat)
      requires Owned(S()) && d in nodes && d in mem && 0 < k < 12 && j < 21
      requires lba == V(S(), d).ab[k] && lba != 0 && DirShape(V(S(), d)) && OnlyLive(V(S(), d), k, j)
      requires mem[d].node.size >= 24
      modifies this`mem, this`bb, this`own
      ensures EntryGone(old(S()), S(), d, 21 * k + j)
    {
      hide V, Owned, DirShape, OnlyLive, EntryGone;
      ghost var s := S();
      HeadOfView(s, d);
      OwnerOf(s, d, k);
      OwnedIsMarked(s, lba);
      FreeBlockBit(lba);
      mem := mem[d := mem[d].(node := mem[d].node.(sec := mem[d].node.sec[k := 0], size := mem[d].node.size - 24))];
      own := own - {lba};
      DirectDropped(s, S(), d, k, j);
    }

    /** The tail of delete_dir_entry when an indirect block goes: the table is rewritten, or given
        back with its last block. */
    method DropIndirectBlock(d: nat, k: nat, ghost j: nat, ab: seq<nat>)
      requires Owned(S()) && d in nodes && d in mem && 12 <= k < 140 && j < 21
      requires ab == V(S(), d).ab && ab[k] != 0 && DirShape(V(S(), d)) && OnlyLive(V(S(), d), k, j)
      requires mem[d].node.size >= 24
      modifies this`disk, this`mem, this`bb, this`own
      ensures EntryGone(old(S()), S(), d, 21 * k + j)
    {
      hide V, Owned, DirShape, OnlyLive, EntryGone, EncTable, Dropped, Words;
      ghost var s := S();
      HeadOfView(s, d);
      DirectOfView(s, d);
      OwnerOf(s, d, k);
      OwnerOf(s, d, 140);
      OwnedIsMarked(s, ab[k]);
      BlocksAreWords(s, d);
      WordsKept(ab, k);
      TableIsThere(V(s, d), k);
      var sec := mem[d].node.sec;
      OwnedIsMarked(s, sec[12]);
      FreeBlockBit(ab[k]);
      ghost var gone: set<nat> := {ab[k]};
      var left := CountIndirect(ab, k);
      if left > 1 {
        disk := disk[sec[12] := EncTable(ab[k := 0][12..])];
      } else {
        FreeBlockBit(sec[12]);
        gone := {ab[k], sec[12]};
        sec := sec[12 := 0];
      }
      DroppedOk(s, d, k, j, gone, bb, disk, sec);
      DroppedNode(s, d, gone, bb, disk, sec);
      mem := mem[d := mem[d].(node := mem[d].node.(sec := sec, size := mem[d].node.size - 24))];
      own := own - gone;
      assert S() == Dropped(s, d, gone, bb, disk, sec);
    }

    /** The count of present indirect blocks, of which k is one. */
    method CountIndirect(ab: seq<nat>, ghost k: nat) returns (n: nat)
      requires |ab| == 140 && 12 <= k < 140 && ab[k] != 0
      ensures n >= 1 && (n > 1 <==> !NoIndirect(ab[k := 0]))
    {
      n := 0;
      var i := 12;
      while i < 140
        invariant 12 <= i <= 140
        invariant n >= if i > k then 1 else 0
        invariant (n > if i > k then 1 else 0) <==> exists x :: 12 <= x < i && x != k && ab[x] != 0
      {
        if ab[i] != 0 {
          n := n + 1;
        }
        i := i + 1;
      }
      assert forall x :: 12 <= x < 140 && x != k ==> ab[k := 0][x] == ab[x];
    }

    /** inode_sync: the slot written is the inode number's low byte. */
    method InodeSync(d: nat)
      requires d in mem && |itab| >= 256
      modifies this`itab
      ensures itab == old(itab)[mem[d].node.no % 256 := mem[d].node]
    {
      itab := itab[mem[d].node.no % 256 := mem[d].node];
    }

    /** delete_dir_entry once its entry is found, up to the sync. */
    method RemoveFound(d: nat, k: nat, j: nat, ab: seq<nat>, buf: Sector, cnt: nat, first: bool)
      requires Owned(S()) && d in nodes && d in mem && k < 140 && j < 21 && DirShape(V(S(), d))
      requires ab == V(S(), d).ab && ab[k] != 0 && buf == At(disk, ab[k]) && Entries(buf) == Block(V(S(), d), k)
      requires Counts(Entries(buf)[j]) && cnt == |Counted(Entries(buf), 21)|
      requires first <==> exists i :: 0 <= i < 21 && Live(Entries(buf)[i]) && Entries(buf)[i].name == DOT
      modifies this`disk, this`mem, this`bb, this`own
      ensures EntryGone(old(S()), S(), d, 21 * k + j)
    {
      hide V, Owned, DirShape, PutInPlace, PutEntry, Slots, OnlyLive, EntryGone, Counted, Entries, Block, At, Counts,
           Live;
      ghost var s := S();
      ghost var v := V(s, d);
      HeadOfView(s, d);
      SizeOfDir(v);
      if cnt == 1 && !first {
        AloneIsOnlyLive(v, k, j);
        if k < 12 {
          DropDirectBlock(d, k, j, ab[k]);
        } else {
          DropIndirectBlock(d, k, j, ab);
        }
      } else {
        NotAloneKeepsOne(v, k, j);
        KillEntry(d, k, j, ab[k], buf);
        KilledIsGone(s, S(), d, k, j, s.mem[d].node.size - 24);
      }
    }

    /** delete_dir_entry: the entry of inode `ino` leaves directory d, which is then synced. */
    method DeleteDirEntry(d: nat, ino: nat) returns (ok: bool, ghost c: nat)
      requires Owned(S()) && d in nodes && d in mem && DirShape(V(S(), d)) && |itab| >= 256
      requires forall k :: 0 <= k < 140 ==> OneIno(Block(V(S(), d), k), ino)
      modifies this`disk, this`mem, this`bb, this`own, this`itab
      ensures ok ==> c < 2940 && Counts(Slots(old(V(S(), d)))[c]) && Slots(old(V(S(), d)))[c].ino == ino
      ensures ok ==> EntryGone(old(S()), S().(itab := old(itab)), d, c)
      ensures ok ==> d in mem && itab == old(itab)[mem[d].node.no % 256 := mem[d].node]
      ensures !ok ==> S() == old(S())
      ensures !ok ==> forall x :: 0 <= x < 2940 && Counts(Slots(V(S(), d))[x]) ==> Slots(V(S(), d))[x].ino != ino
    {
      hide V, Owned, DirShape, PutInPlace, PutEntry, Slots, EntryGone, Counted, OneIno, Entries;
      ghost var s := S();
      ghost var v := V(s, d);
      var ab := LoadBlocks(d);
      var k := 0;
      c := 0;
      while k < 140
        invariant k <= 140 && S() == s
        invariant forall l, i :: 0 <= l < k && 0 <= i < 21 && Counts(Block(v, l)[i]) ==> Block(v, l)[i].ino != ino
      {
        if ab[k] != 0 {
          var buf := At(disk, ab[k]);
          assert Entries(buf) == Block(v, k);
          var cnt, first, found := CountBlock(Entries(buf), ino);
          if found != -1 {
            c := 21 * k + found;
            SlotOfBlock(v, k, found);
            RemoveFound(d, k, found, ab, buf, cnt, first);
            GoneKeepsMem(s, S(), d, c);
            InodeSync(d);
            return true, c;
          }
        }
        k := k + 1;
      }
      ok := false;
      forall x | 0 <= x < 2940 && Counts(Slots(v)[x])
        ensures Slots(v)[x].ino != ino
      {
        BlockOfSlot(v, x);
      }
    }

    // ---- fs/file.c: writing ----

    /** The allocation loop that file_write's situations share: blocks from..to are marked and
        recorded, until there is none left. */
    method AllocRange(f: nat, from: nat, to: nat, loc0: seq<nat>)
      returns (ok: bool, loc: seq<nat>, ghost added: map<nat, (nat, nat)>)
      requires Geometry(S()) && f in mem && |loc0| == 140 && from <= to <= 140
      modifies this`bb, this`mem
      ensures ok <==> |FreeBlocks(old(S()))| >= to - from
      ensures ok ==> RangeAllocated(old(S()), S(), f, from, to, loc0, loc, added)
    {
      hide V, BlockAllocated, RangeAllocated, Geometry, FreeBlocks;
      ghost var s := S();
      loc, added := loc0, map[];
      var i := from;
      RangeStart(s, f, from, loc0);
      while i < to
        invariant from <= i <= to
        invariant RangeAllocated(s, S(), f, from, i, loc0, loc, added)
      {
        ghost var s1 := S();
        RangeFacts(s, s1, f, from, i, loc0, loc, added);
        var lba := BlockBitmapAlloc();
        if lba == -1 {
          NoFree(s1, S());
          return false, loc, added;
        }
        ghost var s2 := S();
        if i < 12 {
          AllocatedMem(s1, s2, lba);
          mem := mem[f := mem[f].(node := mem[f].node.(sec := mem[f].node.sec[i := lba]))];
        }
        RangeStep(s, s1, s2, S(), f, from, i, loc0, loc, added, lba);
        loc := loc[i := lba];
        added := added[lba := (f, i)];
        i := i + 1;
      }
      RangeFacts(s, S(), f, from, to, loc0, loc, added);
      ok := true;
    }

    /** Situation 1 of file_write: all new blocks are direct. */
    method GrowDirect(f: nat, from: nat, to: nat) returns (ok: bool, loc: seq<nat>)
      requires Owned(S()) && f in nodes && f in mem && Blocks(V(S(), f), from) && 0 < from < to <= 12
      modifies this`bb, this`mem, this`own
      ensures ok <==> |FreeBlocks(old(S()))| >= Need(from, to)
      ensures ok ==> FileReady(old(S()), S(), f, from, to) && Covers(loc, V(S(), f), from, to)
    {
      hide V, OwnedBy, RangeAllocated, RangeState, FileReady, FreeBlocks, Covers;
      ghost var s := S();
      HeadOfView(s, f);
      DirectOfView(s, f);
      loc := seq(140, _ => 0);
      loc := loc[from - 1 := mem[f].node.sec[from - 1]];
      assert mem[f].node.sec[..12][from - 1] == V(s, f).ab[..12][from - 1];
      ghost var loc0, added := loc, map[];
      ok, loc, added := AllocRange(f, from, to, loc);
      if ok {
        ghost var s1 := S();
        RangeLoc(s, s1, f, from, to, loc0, loc, added);
        own := own + added;
        AssembleSame(s, s1, S(), f, from, to, loc0, loc, added);
        RangeReady(s, S(), f, from, to, loc, V(s, f).tab, added);
        SplicedCovers(loc0, loc, V(s, f), V(S(), f), from, to);
      }
    }

    /** Situation 3 of file_write: the table is there, and all new blocks are indirect. */
    method GrowIndirect(f: nat, from: nat, to: nat) returns (ok: bool, loc: seq<nat>)
      requires Owned(S()) && f in nodes && f in mem && Blocks(V(S(), f), from) && 12 < from < to <= 140
      modifies this`disk, this`bb, this`mem, this`own
      ensures ok <==> |FreeBlocks(old(S()))| >= Need(from, to)
      ensures ok ==> FileReady(old(S()), S(), f, from, to) && Covers(loc, V(S(), f), from, to)
    {
      hide V, OwnedBy, RangeAllocated, RangeState, FileReady, FreeBlocks, Covers, EncTable, Table, Words;
      ghost var s := S();
      PartsOfView(s, f);
      assert mem[f].node.sec[12] != 0;
      var tab := mem[f].node.sec[12];
      loc := seq(12, _ => 0) + Table(At(disk, tab));
      assert loc[12..] == V(s, f).ab[12..];
      assert loc[12..][from - 13] == loc[from - 1] && V(s, f).ab[12..][from - 13] == V(s, f).ab[from - 1];
      ghost var loc0, added := loc, map[];
      ok, loc, added := AllocRange(f, from, to, loc);
      if ok {
        ghost var s1 := S();
        RangeLoc(s, s1, f, from, to, loc0, loc, added);
        RangeTableOk(s, s1, f, from, to, loc0, loc, added);
        disk := disk[tab := EncTable(loc[12..])];
        own := own + added;
        AssembleSame(s, s1, S(), f, from, to, loc0, loc, added);
        RangeReady(s, S(), f, from, to, loc, tab, added);
        SplicedCovers(loc0, loc, V(s, f), V(S(), f), from, to);
      }
    }

    /** Situation 2 of file_write: direct blocks run out, so the table is allocated first. */
    method GrowAcross(f: nat, from: nat, to: nat) returns (ok: bool, loc: seq<nat>)
      requires Owned(S()) && f in nodes && f in mem && Blocks(V(S(), f), from) && 0 < from <= 12 < to <= 140
      modifies this`disk, this`bb, this`mem, this`own
      ensures ok <==> |FreeBlocks(old(S()))| >= Need(from, to)
      ensures ok ==> FileReady(old(S()), S(), f, from, to) && Covers(loc, V(S(), f), from, to)
    {
      hide V, OwnedBy, RangeAllocated, RangeState, FileReady, FreeBlocks, Covers, EncTable, Table, Words,
           BlockAllocated;
      ghost var s := S();
      HeadOfView(s, f);
      DirectOfView(s, f);
      loc := seq(140, _ => 0);
      loc := loc[from - 1 := mem[f].node.sec[from - 1]];
      assert mem[f].node.sec[..12][from - 1] == V(s, f).ab[..12][from - 1];
      var tab := BlockBitmapAlloc();
      if tab == -1 {
        NoFree(s, S());
        return false, loc;
      }
      ghost var sb := S();
      TableTaken(s, sb, f, tab);
      assert mem[f].node.sec[12] == 0;
      mem := mem[f := mem[f].(node := mem[f].node.(sec := mem[f].node.sec[12 := tab]))];
      ghost var st := S();
      TableTakenToo(s, sb, st, f, tab);
      ghost var loc0, added := loc, map[];
      ok, loc, added := AllocRange(f, from, to, loc);
      if ok {
        ghost var s1 := S();
        assert loc0[12..] == seq(128, _ => 0);
        RangeLoc(st, s1, f, from, to, loc0, loc, added);
        AcrossTableOk(s, sb, st, s1, f, tab, from, to, loc0, loc, added);
        disk := disk[tab := EncTable(loc[12..])];
        own := own + added[tab := (f, 140)];
        AssembleTable(s, sb, st, s1, S(), f, tab, from, to, loc0, loc, added);
        RangeReady(s, S(), f, from, to, loc, tab, added[tab := (f, 140)]);
        SplicedCovers(loc0, loc, V(s, f), V(S(), f), from, to);
      }
    }

    /** The first write of a file gives it block 0. */
    method FirstBlock(f: nat) returns (ok: bool)
      requires Owned(S()) && f in nodes && f in mem && Blocks(V(S(), f), 0)
      modifies this`bb, this`mem, this`own
      ensures ok <==> |FreeBlocks(old(S()))| >= 1
      ensures !ok ==> S() == old(S())
      ensures ok ==> FileReady(old(S()), S(), f, 0, 1) && |FreeBlocks(S())| + 1 == |FreeBlocks(old(S()))|
    {
      hide V, OwnedBy, RangeAllocated, RangeState, FileReady, FreeBlocks, Covers, BlockAllocated;
      ghost var s := S();
      ghost var loc := seq(140, _ => 0);
      RangeStart(s, f, 0, loc);
      var lba := BlockBitmapAlloc();
      if lba == -1 {
        NoFree(s, S());
        NoneAllocated(s, S());
        return false;
      }
      ghost var s2 := S();
      AllocatedMem(s, s2, lba);
      mem := mem[f := mem[f].(node := mem[f].node.(sec := mem[f].node.sec[0 := lba]))];
      ghost var s1 := S();
      RangeStep(s, s, s2, s1, f, 0, 0, loc, loc, map[], lba);
      ghost var added: map<nat, (nat, nat)> := map[][lba := (f, 0)];
      RangeFacts(s, s1, f, 0, 1, loc, loc[0 := lba], added);
      own := own + added;
      AssembleSame(s, s1, S(), f, 0, 1, loc, loc[0 := lba], added);
      RangeReady(s, S(), f, 0, 1, loc[0 := lba], V(s, f).tab, added);
      SameFree(s1, S());
      ok := true;
    }

    /** One chunk of file_write: the sector is read first only the first time; a later chunk
        starts a sector. */
    method WriteChunk(f: nat, lba: nat, piece: seq<byte>, first: bool, ghost s: Fs, ghost done: seq<byte>)
      requires f in mem && f in s.nodes && Appended(s, S(), f, done)
      requires V(S(), f).size + |piece| <= MAX_SIZE && V(S(), f).size < MAX_SIZE && Blk(V(S(), f).size) < 140
      requires Off(V(S(), f).size) + |piece| <= 512 && (first || Off(V(S(), f).size) == 0)
      requires lba == V(S(), f).ab[Blk(V(S(), f).size)] && lba != 0
      modifies this`disk, this`mem
      ensures Appended(s, S(), f, done + piece)
      ensures f in mem && mem[f].node.size == old(mem)[f].node.size + |piece|
    {
      hide V, Owned, Appended, Patched, At, SectorsOf, Blk, Off, Spells;
      ghost var s1 := S();
      PartsOfView(s1, f);
      var size := mem[f].node.size;
      ChunkOnDisk(s, s1, f, done, Blk(size));
      var io := if first then At(disk, lba) else ZERO_SECTOR;
      SectorAt(disk, V(s1, f).ab, Blk(size));
      disk := disk[lba := Patched(io, Off(size), piece)];
      mem := mem[f := mem[f].(node := mem[f].node.(size := size + |piece|))];
      ChunkWritten(s, s1, S(), f, lba, done, io, piece);
    }

    /** One turn of the writing loop. */
    method WriteNext(f: nat, buf: seq<byte>, loc: seq<nat>, written: nat, first: bool, ghost s: Fs) returns (chunk: nat)
      requires Writing(s, S(), f, buf, loc, written, first) && written < |buf|
      modifies this`disk, this`mem
      ensures 0 < chunk <= |buf| - written && Writing(s, S(), f, buf, loc, written + chunk, false)
    {
      hide V, Writing, Appended, Blk, Off, ChunkLen;
      WritingNext(s, S(), f, buf, loc, written, first);
      var size := mem[f].node.size;
      ghost var s1 := S();
      ChunkFits(size, |buf| - written);
      chunk := ChunkLen(size, |buf| - written);
      WriteChunk(f, loc[Blk(size)], buf[written..written + chunk], first, s, buf[..written]);
      WritingStep(s, s1, S(), f, buf, loc, written, first);
    }

    /** The writing loop of file_write, given a list with the blocks to write. Also gives the
        position file_write leaves behind. */
    method WriteChunks(f: nat, buf: seq<byte>, loc: seq<nat>) returns (pos: nat)
      requires Owned(S()) && f in nodes && f in mem && V(S(), f).size + |buf| < MAX_SIZE
      requires Blocks(V(S(), f), Blk(V(S(), f).size + |buf|) + 1)
      requires Covers(loc, V(S(), f), Blk(V(S(), f).size) + 1, Blk(V(S(), f).size + |buf|) + 1)
      modifies this`disk, this`mem
      ensures Appended(old(S()), S(), f, buf)
      ensures pos == PosAfter(old(V(S(), f)).size + |buf|)
    {
      hide V, Owned, Writing, Appended, Covers, Blocks, PosAfter, Advance, Blk;
      ghost var s := S();
      HeadOfView(s, f);
      var size0 := mem[f].node.size;
      WritingStart(s, f, buf, loc);
      var written, first := 0, true;
      pos := PosAfter(size0);
      while written < |buf|
        invariant written <= |buf| && Writing(s, S(), f, buf, loc, written, first)
        invariant pos == PosAfter(size0 + written)
      {
        var chunk := WriteNext(f, buf, loc, written, first, s);
        AdvancePos(size0 + written, chunk);
        pos := Advance(pos, chunk);
        written, first := written + chunk, false;
      }
      WritingDone(s, S(), f, buf, loc, first);
    }

    /** file_write's block preparation: block 0 for a file never written, then the situations. */
    method PrepareBlocks(f: nat, n: nat) returns (ok: bool, loc: seq<nat>)
      requires Owned(S()) && f in nodes && f in mem && FileShape(V(S(), f)) && V(S(), f).size + n < MAX_SIZE
      modifies this`disk, this`bb, this`mem, this`own
      ensures ok <==> |FreeBlocks(old(S()))| >= TotalNeed(old(V(S(), f)), n)
      ensures ok ==> Prepared(old(S()), S(), f, n)
                     && Covers(loc, V(S(), f), Blk(old(V(S(), f)).size) + 1, Blk(old(V(S(), f)).size + n) + 1)
    {
      hide V, Owned, Blocks, FileShape, FileReady, FreeBlocks, Covers, Prepared, Spells, SameRest, OnlyNode;
      ghost var s := S();
      HeadOfView(s, f);
      DirectOfView(s, f);
      ShapeBlocks(V(s, f));
      assert mem[f].node.sec[..12][0] == V(s, f).ab[..12][0];
      loc := [];
      var has, will := Blk(mem[f].node.size) + 1, Blk(mem[f].node.size + n) + 1;
      if mem[f].node.sec[0] == 0 {
        ok := FirstBlock(f);
        if !ok {
          return;
        }
        ReadyFacts(s, S(), f, 0, 1);
      } else {
        ReadyAlready(s, f, has);
      }
      ghost var s1 := S();
      HeadOfView(s1, f);
      if will == has {
        loc := BlocksAsLoaded(f, has);
        ReadyAlready(s1, f, has);
        ok := true;
      } else if will <= 12 {
        ok, loc := GrowDirect(f, has, will);
      } else if has <= 12 {
        ok, loc := GrowAcross(f, has, will);
      } else {
        ok, loc := GrowIndirect(f, has, will);
      }
      if ok {
        PreparedTwice(s, s1, S(), f, n, has, will);
      }
    }

    /** No new blocks: the one block to write, read from the inode or from the table. */
    method BlocksAsLoaded(f: nat, has: nat) returns (loc: seq<nat>)
      requires f in mem && 0 < has <= 140 && Blocks(V(S(), f), has)
      ensures Covers(loc, V(S(), f), has, has)
    {
      hide V;
      PartsOfView(S(), f);
      loc := seq(140, _ => 0);
      if has <= 12 {
        loc := loc[has - 1 := mem[f].node.sec[has - 1]];
        assert mem[f].node.sec[..12][has - 1] == V(S(), f).ab[..12][has - 1];
      } else {
        loc := loc[..12] + Table(At(disk, mem[f].node.sec[12]));
        assert V(S(), f).ab[12..][has - 13] == V(S(), f).ab[has - 1];
      }
    }

    /** file_write: -1 when the file would pass 140 blocks or the blocks are not there, else the
        buffer is appended to the file and nothing else changes. */
    method FileWrite(fd: nat, buf: seq<byte>) returns (r: int)
      requires Owned(S()) && fd < |files| && files[fd].Open? && files[fd].ino in nodes && files[fd].ino in mem
      requires FileShape(V(S(), files[fd].ino)) && files[fd].ino == mem[files[fd].ino].node.no < 256 <= |itab|
      requires V(S(), files[fd].ino).size + |buf| != MAX_SIZE
      modifies this`disk, this`bb, this`mem, this`own, this`itab, this`files
      ensures r == -1 <==> old(V(S(), files[fd].ino)).size + |buf| > MAX_SIZE
                           || |FreeBlocks(old(S()))| < TotalNeed(old(V(S(), files[fd].ino)), |buf|)
      ensures old(V(S(), files[fd].ino)).size + |buf| > MAX_SIZE ==> S() == old(S())
      ensures r != -1 ==> r == |buf| && Wrote(old(S()), S(), fd, buf)
    {
      hide V, Owned, FileShape, FreeBlocks, Covers, Prepared, Appended, Wrote, PosAfter, OnlyNode, TotalNeed, Blk,
           Off, Blocks, SameRest;
      ghost var s := S();
      var f := files[fd].ino;
      HeadOfView(s, f);
      ShapeBlocks(V(s, f));
      if mem[f].node.size + |buf| > MAX_SIZE {
        return -1;
      }
      var ok, loc := PrepareBlocks(f, |buf|);
      if !ok {
        return -1;
      }
      ghost var s1 := S();
      PreparedFacts(s, s1, f, |buf|);
      var pos := WriteChunks(f, buf, loc);
      ghost var s2 := S();
      WrittenFacts(s, s1, s2, f, buf);
      files := files[fd := files[fd].(pos := pos)];
      InodeSync(f);
      assert S() == s2.(itab := s.itab[f := s2.mem[f].node], files := s.files[fd := s.files[fd].(pos := pos)]);
      WroteFromParts(s, s1, s2, S(), fd, f, buf);
      r := |buf|;
    }

    // ---- fs/file.c: reading ----

    /** The block list that file_read assembles: direct pointers, the table, or both. */
    static method AssembleRead(sec: seq<nat>, table: seq<nat>, start: nat, end: nat) returns (loc: seq<nat>)
      requires |sec| == 13 && start <= end < 139 && (end >= 12 ==> |table| == 128)
      ensures |loc| == 140 && forall k :: start <= k <= end ==> loc[k] == if k < 12 then sec[k] else table[k - 12]
    {
      loc := seq(140, _ => 0);
      if start == end && end < 12 {
        loc := loc[end := sec[end]];
        return;
      }
      if start < 12 {
        var i := start;
        var stop := if end < 12 then end + 1 else 12;
        while i < stop
          invariant start <= i <= stop && |loc| == 140
          invariant forall k :: start <= k < i ==> loc[k] == sec[k]
        {
          loc := loc[i := sec[i]];
          i := i + 1;
        }
      }
      if end >= 12 {
        loc := loc[..12] + table;
      }
    }

    method LoadForRead(f: nat, start: nat, end: nat) returns (loc: seq<nat>)
      requires f in mem && start <= end < 139 && (end >= 12 ==> V(S(), f).tab != 0)
      ensures Loaded(loc, V(S(), f), start, end)
    {
      hide V, Loaded;
      PartsOfView(S(), f);
      var sec := mem[f].node.sec;
      var table := if end >= 12 then Table(At(disk, sec[12])) else [];
      loc := AssembleRead(sec, table, start, end);
      LoadedFromParts(loc, V(S(), f), sec, table, start, end);
    }

    /** The reading loop of file_read. */
    method ReadChunks(f: nat, loc: seq<nat>, pos: nat, n: nat) returns (data: seq<byte>)
      requires f in mem && FileShape(V(S(), f)) && pos + n <= V(S(), f).size
      requires Loaded(loc, V(S(), f), Blk(pos), Blk(pos + n))
      ensures V(S(), f).size <= MAX_SIZE && data == Content(V(S(), f))[pos..pos + n]
    {
      hide V, Loaded, FileShape, Content, Blk, Off, ChunkLen, Spells;
      ghost var v := V(S(), f);
      ShapeBlocks(v);
      PartsOfView(S(), f);
      data := [];
      while |data| < n
        invariant |data| <= n && data == Content(v)[pos..pos + |data|]
      {
        var p := pos + |data|;
        ReadBlock(loc, v, pos, p, pos + n);
        ChunkFits(p, n - |data|);
        var chunk := ChunkLen(p, n - |data|);
        var io := At(disk, loc[Blk(p)]);
        SectorAt(disk, v.ab, Blk(p));
        ChunkRead(v, p, chunk);
        data := data + io[Off(p)..Off(p) + chunk];
        assert Content(v)[pos..p] + Content(v)[p..p + chunk] == Content(v)[pos..p + chunk];
      }
    }

    /** The block list and the loop of file_read together. */
    method ReadAt(f: nat, pos: nat, n: nat) returns (data: seq<byte>)
      requires f in mem && FileShape(V(S(), f)) && pos + n <= V(S(), f).size && Blk(pos) <= Blk(pos + n) < 139
      ensures V(S(), f).size <= MAX_SIZE && data == Content(V(S(), f))[pos..pos + n]
    {
      hide V, FileShape, Content, Blk, Loaded;
      if Blk(pos + n) >= 12 {
        ReadTable(V(S(), f), pos + n);
      }
      var loc := LoadForRead(f, Blk(pos), Blk(pos + n));
      data := ReadChunks(f, loc, pos, n);
    }

    /** file_read: the bytes from the position to the end of the read or of the file; -1 when
        there is none left. The code asserts that the read ends below block 139. */
    method FileRead(fd: nat, count: nat) returns (r: int, data: seq<byte>)
      requires fd < |files| && files[fd].Open? && files[fd].ino in mem && FileShape(V(S(), files[fd].ino))
      requires files[fd].pos <= V(S(), files[fd].ino).size
      requires Blk(files[fd].pos + count) < 139 || Blk(V(S(), files[fd].ino).size) < 139
      modifies this`files
      ensures var v := old(V(S(), files[fd].ino));
              var pos := old(files)[fd].pos;
              && v.size <= MAX_SIZE
              && (r == -1 <==> pos == v.size && count > 0)
              && (r == -1 ==> S() == old(S()))
              && (r != -1 ==>
                    && r == |data| && r == (if pos + count > v.size then v.size - pos else count)
                    && data == Content(v)[pos..pos + r]
                    && S() == old(S()).(files := old(files)[fd := old(files)[fd].(pos := pos + r)]))
    {
      hide V, FileShape, Content, Blk, Loaded;
      var f, pos := files[fd].ino, files[fd].pos;
      HeadOfView(S(), f);
      ShapeBlocks(V(S(), f));
      var size := count;
      data := [];
      if pos + count > mem[f].node.size {
        size := mem[f].node.size - pos;
        if size == 0 {
          return -1, [];
        }
      }
      ReadTop(pos, count, size, mem[f].node.size);
      data := ReadAt(f, pos, size);
      files := files[fd := files[fd].(pos := pos + |data|)];
      r := |data|;
    }

    /** sys_lseek on an open file: 1 sets, 2 is relative, 3 is from the end. The new position
        always lies inside the file. */
    method Lseek(fd: nat, offset: int, whence: nat) returns (r: int)
      requires fd < |files| && files[fd].Open? && files[fd].ino in mem && 1 <= whence <= 3
      modifies this`files
      ensures var size := old(mem[files[fd].ino].node.size);
              var to := offset + if whence == 1 then 0 else if whence == 2 then old(files[fd].pos) else size;
              if 0 <= to < size then r == to && S() == old(S()).(files := old(files)[fd := old(files)[fd].(pos := to)])
              else r == -1 && S() == old(S())
    {
      var size := mem[files[fd].ino].node.size;
      var to;
      match whence {
        case 1 => to := offset;
        case 2 => to := files[fd].pos + offset;
        case _ => to := size + offset;
      }
      if to < 0 || to > size - 1 {
        return -1;
      }
      files := files[fd := files[fd].(pos := to)];
      r := to;
    }

    // ---- open inodes ----

    /** inode_open: an inode on the open list is shared, another is read from its slot. */
    method InodeOpen(i: nat)
      requires i < |itab|
      modifies this`mem
      ensures mem == OpenedMem(old(mem), itab, i)
    {
      if i in mem {
        mem := mem[i := mem[i].(cnt := mem[i].cnt + 1)];
      } else {
        mem := mem[i := MemInode(itab[i], 1, false)];
      }
    }

    /** inode_close: the last close takes the inode off the open list. */
    method InodeClose(i: nat)
      requires i in mem && mem[i].cnt >= 1
      modifies this`mem
      ensures mem == ClosedMem(old(mem), i)
    {
      mem := mem[i := mem[i].(cnt := mem[i].cnt - 1)];
      if mem[i].cnt == 0 {
        mem := mem - {i};
      }
    }

    /** The parent directory as search_file leaves it: root_dir is never opened again or closed. */
    method DirOpen(p: nat)
      requires Inv(S()) && p in dirs
      modifies this`mem
      ensures DirOpened(old(S()), S(), p)
    {
      hide V, Inv;
      CanOpen(S(), p);
      if p != 0 {
        InodeOpen(p);
      }
    }

    method DirClose(p: nat)
      requires p in mem && mem[p].cnt >= 1
      modifies this`mem
      ensures DirClosed(old(S()), S(), p)
    {
      if p != 0 {
        InodeClose(p);
      }
    }

    /** The handle that sys_opendir gives for directory d: d is counted once more. */
    method OpenDir(d: nat)
      requires Inv(S()) && d in dirs
      modifies this`mem
      ensures Inv(S()) && d < |itab| && S() == old(S()).(mem := OpenedMem(old(mem), itab, d))
    {
      hide V, Inv;
      CanOpen(S(), d);
      ghost var s := S();
      InodeOpen(d);
      InvHandle(s, S(), d);
    }

    /** sys_closedir, on a handle of directory d that is not root_dir's. */
    method CloseDir(d: nat)
      requires Inv(S()) && d in dirs && d in mem && mem[d].cnt >= 1 && (d == 0 ==> mem[d].cnt >= 2)
      modifies this`mem
      ensures Inv(S()) && S() == old(S()).(mem := ClosedMem(old(mem), d))
    {
      hide V, Inv;
      CanOpen(S(), d);
      ghost var s := S();
      InodeClose(d);
      InvHandle(s, S(), d);
    }

    // ---- new files ----

    /** inode_bitmap_alloc. */
    method InodeBitmapAlloc() returns (i: int)
      modifies this`ib
      ensures i == FirstClear(old(ib))
      ensures ib == if i == -1 then old(ib) else old(ib)[i := true]
    {
      i := FirstClear(ib);
      if i != -1 {
        ib := ib[i := true];
      }
    }

    /** get_free_slot_in_global: the lowest free slot from 3 on. */
    method GetFreeSlotInGlobal() returns (fd: int)
      requires |files| == 32
      ensures fd == -1 <==> !HasFreeSlot(files)
      ensures fd == -1 || LowestFreeSlot(files, fd)
    {
      fd := 3;
      while fd < 32
        invariant 3 <= fd <= 32 && forall k :: 3 <= k < fd ==> files[k].Open?
      {
        if files[fd].Closed? {
          return;
        }
        fd := fd + 1;
      }
      fd := -1;
    }

    /** The tail of file_create: both inodes synced, the new one opened. */
    method SyncAndPush(p: nat, i: nat)
      requires p in mem && mem[p].node.no == p < 256 <= |itab| && i < 256
      modifies this`itab, this`mem
      ensures itab == old(itab)[p := old(mem)[p].node][i := EmptyInode(i)]
      ensures mem == old(mem)[i := MemInode(EmptyInode(i), 1, false)]
    {
      SyncBoth(p, EmptyInode(i), i);
      mem := mem[i := MemInode(EmptyInode(i), 1, false)];
    }

    /** The same, with the bookkeeping of the new file. */
    method RecordFile(p: nat, i: nat, ghost s: Fs, ghost a: Fs, ghost c: nat, ghost fd: nat, ghost e: DirEntry,
                      ghost flag: nat)
      requires Core(s) && p in s.dirs && p in s.mem && i < |s.ib| && fd < |s.files| && s.files[fd].Closed?
      requires a == s.(ib := s.ib[i := true], files := s.files[fd := Open(i, 0, flag)])
      requires EntrySynced(a, S(), p, c, e) && e.ino == i && e.ftype == FT_REGULAR && !s.ib[i] && i < 256 && i !in s.mem
      modifies this`itab, this`mem, this`nodes, this`par
      ensures FileCreated(s, S(), p, i, c, fd, e, flag)
    {
      hide V, Core, FileCreated, EntrySynced;
      ghost var b := S();
      SyncedMem(s, a, b, p, c, e);
      CoreFacts(s, p);
      SyncAndPush(p, i);
      nodes := nodes + {i};
      par := par[i := (p, c)];
      CreatedFromParts(s, a, b, S(), p, i, c, fd, e, flag);
    }

    /** file_create up to its last line, with its rollbacks: the entry, the inode, and the lowest free
        slot g of file_table. */
    method MakeFile(p: nat, name: seq<byte>, flag: nat) returns (g: int, ghost i: nat, ghost c: nat)
      requires Core(S()) && p in dirs && p in mem && |files| == 32 && mem.Keys <= nodes
      requires Storable(DirEntry(name, 0, FT_REGULAR)) && name != []
      requires FirstClear(ib) < 256
      modifies this`disk, this`bb, this`ib, this`itab, this`mem, this`files, this`own, this`nodes, this`par
      ensures g != -1 <==> FirstClear(old(ib)) != -1 && HasFreeSlot(old(files)) && Fits(old(S()), p)
      ensures g == -1 ==> S() == old(S())
      ensures g != -1 ==> i == FirstClear(old(ib)) && LowestFreeSlot(old(files), g)
                          && FileCreated(old(S()), S(), p, i, c, g, DirEntry(name, i, FT_REGULAR), flag)
    {
      hide V, Core, FileCreated, EntrySynced, DirShape, FreeBlocks, EntryNeed, FirstDead, Slots, Geometry;
      ghost var s := S();
      CoreFacts(s, p);
      DeadThere(s, p);
      i, c := 0, 0;
      var no := InodeBitmapAlloc();
      if no == -1 {
        return -1, 0, 0;
      }
      g := GetFreeSlotInGlobal();
      if g == -1 {
        ib := ib[no := false];
        assert ib == s.ib;
        return;
      }
      files := files[g := Open(no, 0, flag)];
      ghost var a := S();
      BeforeSync(s, a, p);
      SameRoom(s, a);
      var ok;
      var e := DirEntry(name, no, FT_REGULAR);
      ok, c := SyncDirEntry(p, e);
      if !ok {
        files := files[g := Closed];
        ib := ib[no := false];
        assert ib == s.ib && files == s.files;
        return -1, 0, 0;
      }
      i := no;
      RecordFile(p, no, s, a, c, g, e, flag);
    }

    /** file_create: when the file is made and the process has no descriptor left, the file stays
        made and its slot taken. */
    method FileCreate(p: nat, name: seq<byte>, flag: nat) returns (fd: int, g: int, ghost i: nat, ghost c: nat)
      requires Core(S()) && p in dirs && p in mem && |files| == 32 && mem.Keys <= nodes
      requires Storable(DirEntry(name, 0, FT_REGULAR)) && name != []
      requires FirstClear(ib) < 256
      modifies this`disk, this`bb, this`ib, this`itab, this`mem, this`files, this`own, this`nodes, this`par, this`fds
      ensures g != -1 <==> FirstClear(old(ib)) != -1 && HasFreeSlot(old(files)) && Fits(old(S()), p)
      ensures g == -1 ==> S() == old(S()) && fd == -1 && fds == old(fds)
      ensures g != -1 ==> i == FirstClear(old(ib)) && LowestFreeSlot(old(files), g) && FdInstalled(old(fds), fds, fd, g)
                          && FileCreated(old(S()), S(), p, i, c, g, DirEntry(name, i, FT_REGULAR), flag)
    {
      hide V, Core, FileCreated, Fits;
      g, i, c := MakeFile(p, name, flag);
      if g == -1 {
        return -1, g, i, c;
      }
      fd, fds := PcbFdInstall(fds, g);
    }

    /** sys_open with O_CREAT, once the parent directory is resolved. It is -1 also when the file was
        made and the process has no descriptor left; then nothing is undone. */
    method Create(p: nat, name: seq<byte>, flag: nat) returns (fd: int, g: int, ghost i: nat, ghost c: nat)
      requires Inv(S()) && p in dirs && Storable(DirEntry(name, 0, FT_REGULAR)) && name != []
      requires FirstClear(ib) < 256
      modifies this`disk, this`bb, this`ib, this`itab, this`mem, this`files, this`own, this`nodes, this`par, this`fds
      ensures Inv(S()) && (g != -1 <==> Creatable(old(S()), p, name))
      ensures g == -1 ==> fd == -1 && S() == old(S()) && fds == old(fds)
      ensures g != -1 ==> i == FirstClear(old(ib)) && LowestFreeSlot(old(files), g) && FdInstalled(old(fds), fds, fd, g)
                          && FileMade(old(S()), S(), p, i, c, g, DirEntry(name, i, FT_REGULAR), flag)
                          && CreateStep(old(S()), S(), p, i, c, g, DirEntry(name, i, FT_REGULAR), flag)
                          && |FreeBlocks(S())| + EntryNeed(V(old(S()), p)) == |FreeBlocks(old(S()))|
    {
      hide V, Inv, Core, OpenOk, FileCreated, FileMade, DirOpened, DirClosed, Slots, FreeBlocks, EntryNeed, CreateStep;
      ghost var s := S();
      InvFacts(s);
      DirOpen(p);
      ghost var s1 := S();
      OpenedKeeps(s, s1, p);
      OpenedFields(s, s1, p);
      DirsAreInodes(s, p);
      var found, e;
      found, e, c := SearchDirEntry(p, name);
      NamedBy(s, p, V(S(), p), name, found, c);
      fd, g, i := -1, -1, 0;
      if !found {
        fd, g, i, c := FileCreate(p, name, flag);
      }
      ghost var s2 := S();
      if g != -1 {
        CreatedFields(s1, s2, p, i, c, g, DirEntry(name, i, FT_REGULAR), flag);
      }
      DirClose(p);
      if g == -1 {
        OpenedClosed(s, s1, S(), p);
      } else {
        CreateFrom(s, s1, s2, S(), p, i, c, g, DirEntry(name, i, FT_REGULAR), flag);
        InvFileMade(s, s1, s2, S(), p, i, c, g, DirEntry(name, i, FT_REGULAR), flag);
        MadeTakes(s, S(), p, i, c, g, DirEntry(name, i, FT_REGULAR), flag);
      }
    }

    // ---- files that are there ----

    /** file_open. A refusal leaves the inode counted once more; a full descriptor table leaves the
        slot taken. */
    method FileOpen(i: nat, flag: nat) returns (fd: int, g: int)
      requires i < |itab| && |files| == 32
      modifies this`files, this`mem, this`fds
      ensures g == -1 <==> !HasFreeSlot(old(files))
      ensures g == -1 ==> fd == -1 && S() == old(S()) && fds == old(fds)
      ensures g != -1 ==> LowestFreeSlot(old(files), g)
      ensures g != -1 && Denied(old(mem), i, flag) ==>
                fd == -1 && fds == old(fds) && S() == old(S()).(mem := OpenedMem(old(mem), itab, i))
      ensures g != -1 && !Denied(old(mem), i, flag) ==>
                S() == SlotOpened(old(S()), i, g, flag) && FdInstalled(old(fds), fds, fd, g)
      ensures g != -1 && !Denied(old(mem), i, flag) ==>
                && files == old(files)[g := Open(i, 0, flag)] && i in mem && mem.Keys == old(mem).Keys + {i}
                && mem[i] == MemInode(if i in old(mem) then old(mem)[i].node else itab[i],
                                      1 + if i in old(mem) then old(mem)[i].cnt else 0,
                                      Writes(flag) || (i in old(mem) && old(mem)[i].deny))
                && forall j :: j in old(mem) && j != i ==> mem[j] == old(mem)[j]
    {
      g := GetFreeSlotInGlobal();
      if g == -1 {
        return -1, -1;
      }
      InodeOpen(i);
      files := files[g := Open(i, 0, flag)];
      if Writes(flag) {
        if !mem[i].deny {
          mem := mem[i := mem[i].(deny := true)];
        } else {
          files := files[g := Closed];
          assert files == old(files);
          return -1, g;
        }
      }
      fd, fds := PcbFdInstall(fds, g);
    }

    /** sys_open without O_CREAT, once the parent directory is resolved. The parent of a file that is
        found is not closed again. The invariant is lost exactly when the file is refused. */
    method OpenFound(p: nat, name: seq<byte>, flag: nat) returns (fd: int, g: int, ghost i: nat, ghost c: nat)
      requires Inv(S()) && p in dirs && name != []
      modifies this`files, this`mem, this`fds
      ensures g != -1 <==> HasFreeSlot(old(files)) && exists x :: 0 <= x < 2940 && NamesFile(old(S()), p, x, name)
      ensures (forall x :: 0 <= x < 2940 ==> !NamesFile(old(S()), p, x, name)) ==> S() == old(S())
      ensures g == -1 ==> fd == -1 && fds == old(fds) && Inv(S())
      ensures g == -1 && (exists x :: 0 <= x < 2940 && NamesFile(old(S()), p, x, name)) ==>
                p < |itab| && S() == old(S()).(mem := StandingIn(old(S()), p))
      ensures g != -1 ==> c < 2940 && NamesFile(old(S()), p, c, name) && i == Slots(V(old(S()), p))[c].ino
      ensures g != -1 ==> LowestFreeSlot(old(files), g) && p < |itab| && i < |itab|
      ensures g != -1 ==> (Inv(S()) <==> !Denied(old(mem), i, flag))
      ensures g != -1 && Denied(old(mem), i, flag) ==>
                fd == -1 && fds == old(fds) && S() == old(S()).(mem := OpenedMem(StandingIn(old(S()), p), itab, i))
      ensures g != -1 && !Denied(old(mem), i, flag) ==>
                S() == SlotOpened(old(S()).(mem := StandingIn(old(S()), p)), i, g, flag)
                    && FdInstalled(old(fds), fds, fd, g)
      ensures g != -1 && !Denied(old(mem), i, flag) ==>
                files == old(files)[g := Open(i, 0, flag)] && i in mem && (Writes(flag) ==> mem[i].deny)
    {
      hide V, Inv, Core, OpenOk, Slots, DirClosed, SlotOpened;
      ghost var s := S();
      InvFacts(s);
      DirOpen(p);
      ghost var s1 := S();
      OpenedKeeps(s, s1, p);
      OpenedFields(s, s1, p);
      DirsAreInodes(s, p);
      var found, e;
      found, e, c := SearchDirEntry(p, name);
      NamedBy(s, p, V(S(), p), name, found, c);
      fd, g, i := -1, -1, 0;
      if found {
        FoundSlot(s, p, c);
        OnlyOneNamed(s, p, c, name);
      }
      if !found || e.ftype == FT_DIRECTORY {
        DirClose(p);
        OpenedClosed(s, s1, S(), p);
        return;
      }
      i := e.ino;
      InStand(s, s1, p);
      assert NamesFile(s, p, c, name);
      FileNotDir(s, p, c);
      fd, g := FileOpen(e.ino, flag);
      if g != -1 {
        if Denied(s.mem, i, flag) {
          RefusedBreaks(s1, i);
        } else {
          InvSlotOpened(s1, i, g, flag);
        }
      }
    }

    // ---- fs/inode.c: giving an inode back ----

    /** The bitmap part of inode_release: the table, then every block of the list. */
    method ReleaseBlocks(i: nat)
      requires Owned(S()) && i in nodes && i in mem && i != 0 && ds in own && own[ds] == (0, 0)
      modifies this`bb
      ensures Releasing(old(S()), S(), i, 140)
    {
      hide V, Owned, Releasing;
      ghost var m := S();
      ghost var v := V(m, i);
      HeadOfView(m, i);
      var ab := LoadBlocks(i);
      var tab := mem[i].node.sec[12];
      var cnt := 12;
      ReleaseBlock(m, i, 140);
      if tab != 0 {
        cnt := 140;
        assert tab - ds > 0;
        FreeBlockBit(tab);
      }
      ReleaseStart(m, S(), i);
      var k := 0;
      while k < cnt
        invariant k <= cnt && Releasing(m, S(), i, k) && |bb| == |m.bb|
      {
        ghost var s1 := S();
        ReleaseBlock(m, i, k);
        if ab[k] != 0 {
          assert ab[k] - ds > 0;
          FreeBlockBit(ab[k]);
        }
        ReleaseStep(m, s1, S(), i, k, ab[k]);
        k := k + 1;
      }
      if tab == 0 {
        ReleaseShort(m, S(), i);
      }
    }

    /** inode_release: the inode, its blocks, its bitmap bit and its slot on disk. */
    method InodeRelease(i: nat)
      requires Owned(S()) && i in nodes && i != 0 && ds in own && own[ds] == (0, 0) && i < |ib| && i < |itab|
      requires i in mem ==> mem[i].cnt >= 1
      modifies this`bb, this`ib, this`itab, this`mem, this`own, this`nodes, this`dirs, this`par
      ensures Released(old(S()), S(), i) && mem == old(mem)
    {
      hide V, Owned, Releasing, Released;
      ghost var m := S();
      InodeOpen(i);
      ghost var m1 := S();
      OpenSame(m, m1, i);
      ReleaseBlocks(i);
      ghost var m2 := S();
      ib := ib[i := false];
      itab := itab[i := EmptyInode(0)];
      InodeClose(i);
      own := Without(own, i);
      nodes := nodes - {i};
      dirs := dirs - {i};
      par := par - {i};
      ReleasedFromParts(m, m1, m2, S(), i);
    }

    // ---- unlink, mkdir, rmdir ----

    /** Whether some slot of file_table holds inode i. */
    method InUse(i: nat) returns (used: bool)
      ensures used <==> exists k :: 0 <= k < |files| && files[k].Open? && files[k].ino == i
    {
      var k := 0;
      while k < |files|
        invariant k <= |files| && forall x :: 0 <= x < k && files[x].Open? ==> files[x].ino != i
      {
        if files[k].Open? && files[k].ino == i {
          return true;
        }
        k := k + 1;
      }
      used := false;
    }

    /** delete_dir_entry and inode_release together. The entry and its inode go; but of a directory asked
        to remove its own entry only the inode goes, because no entry that counts names it. */
    method RemoveNode(p: nat, i: nat, ghost c0: nat) returns (ghost m: Fs)
      requires Core(S()) && p in dirs && p in mem && mem[p].cnt >= 1 && c0 < 2940
      requires if i == p then i != 0 else Counts(Slots(V(S(), p))[c0]) && Slots(V(S(), p))[c0].ino == i && c0 >= 2
      requires i in mem ==> mem[i].cnt >= 1
      modifies this`disk, this`bb, this`ib, this`itab, this`mem, this`own, this`nodes, this`dirs, this`par
      ensures i != p ==> NodeRemoved(old(S()), m, S(), p, i, c0) && S().mem == m.mem
      ensures i == p ==> SelfGone(old(S()), S(), p)
    {
      hide V, Core, EntryGone, Released, Slots, Counts, DirShape, OneIno;
      ghost var s := S();
      CoreFacts(s, p);
      CoreRoot(s);
      OneInoBlocks(s, p, i);
      if i == p {
        NoSelf(s, p);
      } else {
        CountsNamed(s, p, c0);
        FoundSlot(s, p, c0);
      }
      var ok;
      ghost var c;
      ok, c := DeleteDirEntry(p, i);
      m := S();
      if i != p {
        CountedHigh(s, p, c);
        GoneNumber(s, m.(itab := s.itab), p, c);
        GoneOwned(s, m, p, i, c);
      }
      InodeRelease(i);
    }

    /** sys_unlink between the opening and the closing of the parent directory. */
    method UnlinkHere(p: nat, name: seq<byte>) returns (r: int, ghost i: nat, ghost c: nat, ghost m: Fs)
      requires Core(S()) && p in dirs && p in mem && name != [] && forall j :: j in mem ==> mem[j].cnt >= 1
      modifies this`disk, this`bb, this`ib, this`itab, this`mem, this`own, this`nodes, this`dirs, this`par
      ensures r == 0 || r == -1
      ensures r == -1 ==> S() == old(S())
      ensures r == 0 ==>
                NodeRemoved(old(S()), m, S(), p, i, c) && S().mem == m.mem && c < 2940
                    && Removable(old(S()), p, c, name)
                         && i == Slots(old(V(S(), p)))[c].ino && i in old(nodes)
      ensures r == 0 <==> CanUnlink(old(S()), p, name)
    {
      hide V, Core, NodeRemoved, Slots, Counts;
      ghost var s := S();
      m := s;
      var found, e;
      found, e, c := SearchDirEntry(p, name);
      r, i := -1, 0;
      if found {
        FoundSlot(s, p, c);
        OnlyOneInCore(s, p, c, name);
        var used := InUse(e.ino);
        if e.ftype != FT_DIRECTORY && !used {
          i := e.ino;
          m := RemoveNode(p, e.ino, c);
          assert Removable(s, p, c, name);
          r := 0;
        }
      } else {
        NamedBy(s, p, V(S(), p), name, false, c);
        NameNotIn(s, p, name);
      }
    }

    /** sys_unlink, once the parent directory is resolved. */
    method Unlink(p: nat, name: seq<byte>) returns (r: int, ghost i: nat, ghost c: nat)
      requires Inv(S()) && p in dirs && name != []
      modifies this`disk, this`bb, this`ib, this`itab, this`mem, this`own, this`nodes, this`dirs, this`par
      ensures Inv(S()) && (r == 0 || r == -1)
      ensures r == -1 ==> S() == old(S())
      ensures r == 0 ==>
                NodeGone(old(S()), S(), p, i, c) && i !in old(dirs) && c < 2940 && Removable(old(S()), p, c, name)
      ensures r == 0 ==> RemoveStep(old(S()), S(), p, i, c)
      ensures r == 0 <==> CanUnlink(old(S()), p, name)
    {
      hide V, Inv, Core, OpenOk, NodeRemoved, NodeGone, DirOpened, DirClosed, Slots, RemoveStep;
      ghost var s := S();
      InvFacts(s);
      DirOpen(p);
      ghost var s1 := S();
      OpenedKeeps(s, s1, p);
      OpenedFields(s, s1, p);
      DirsAreInodes(s, p);
      SameUnlink(s, s1, p, name);
      ghost var m;
      r, i, c, m := UnlinkHere(p, name);
      ghost var s2 := S();
      if r == 0 {
        assert V(s1, p) == V(s, p);
        FoundSlot(s, p, c);
        NotHeld(s, i);
        ChildIsOther(s, p, c);
        RemovedFields(s1, m, s2, p, i, c);
      }
      DirClose(p);
      if r == 0 {
        RemoveFrom(s, s1, m, s2, S(), p, i, c);
        InvNodeGone(s, s1, m, s2, S(), p, i, c);
      } else {
        OpenedClosed(s, s1, S(), p);
      }
    }

    /** The part of sys_mkdir that takes an inode and a block and writes the dots; undone for the
        inode when there is no block. */
    method TakeDirBlock(p: nat) returns (no: int, lba: int)
      requires Owned(S()) && p < WORD && FirstClear(ib) < 256
      modifies this`disk, this`bb, this`ib
      ensures lba != -1 <==> FirstClear(old(ib)) != -1 && |FreeBlocks(old(S()))| >= 1
      ensures lba == -1 ==> S() == old(S())
      ensures lba != -1 ==> lba >= 0 && 0 <= no < 256 && no == FirstClear(old(ib)) && ib == old(ib)[no := true]
                            && BlockTaken(old(S()), S(), lba, DotsSector(no, p))
    {
      hide V, Owned, BlockAllocated, DotsSector, PutEntry, FreeBlocks, Geometry;
      ghost var s := S();
      OwnedGeometry(s);
      no := InodeBitmapAlloc();
      if no == -1 {
        return -1, -1;
      }
      ghost var a := S();
      SameRoom(s, a);
      lba := BlockBitmapAlloc();
      AllocCounts(a, S(), lba);
      if lba == -1 {
        NoneAllocated(a, S());
        ib := ib[no := false];
        assert ib == s.ib;
        return;
      }
      TakenFree(s, a, S(), lba);
      disk := disk[lba := DotsSector(no, p)];
    }

    /** sys_mkdir between the opening and the closing of the parent directory, with the states after its
        block was taken and after its entry was synced; -2 when the entry did not fit. */
    method MakeDirHere(p: nat, name: seq<byte>)
      returns (r: int, i: nat, ghost c: nat, ghost b: nat, ghost x: Fs, ghost y: Fs)
      requires Core(S()) && p in dirs && p in mem && mem.Keys <= nodes && FirstClear(ib) < 256
      requires Storable(DirEntry(name, 0, FT_DIRECTORY)) && name != []
      modifies this`disk, this`bb, this`ib, this`itab, this`mem, this`own, this`nodes, this`dirs, this`par
      ensures r == 0 || r == -1 || r == -2
      ensures r == 0 <==> !NameIn(old(S()), p, name) && FirstClear(old(ib)) != -1
                          && |FreeBlocks(old(S()))| >= 1 + EntryNeed(V(old(S()), p))
      ensures r == -2 <==> !NameIn(old(S()), p, name) && FirstClear(old(ib)) != -1
                           && 0 < |FreeBlocks(old(S()))| <= EntryNeed(V(old(S()), p))
      ensures r == -1 ==> S() == old(S())
      ensures r == -2 ==>
                i < 256 && p < WORD && BlockTaken(old(S()), x, b, DotsSector(i, p)) && S() == x.(ib := old(ib))
      ensures r == 0 ==> i == FirstClear(old(ib)) && p in mem && mem[p].cnt == old(mem)[p].cnt
                         && DirCreated(old(S()), x, y, S(), p, i, b, c, DirEntry(name, i, FT_DIRECTORY))
      ensures r == -2 ==> mem == old(mem)
    {
      hide V, Core, Slots, BlockTaken, EntrySynced, DirShape, DirCreated, FreeBlocks, EntryNeed, FirstDead, DotsSector;
      ghost var s := S();
      CoreFacts(s, p);
      DeadThere(s, p);
      x, y, b, i := s, s, 0, 0;
      var found, e;
      found, e, c := SearchDirEntry(p, name);
      NamedBy(s, p, V(S(), p), name, found, c);
      var no, lba := -1, -1;
      if !found {
        no, lba := TakeDirBlock(p);
      }
      if lba == -1 {
        return -1, i, c, b, x, y;
      }
      x, b, i := S(), lba, no;
      BeforeDirSync(s, x, p, lba, DotsSector(no, p));
      TakenRoom(s, x, lba, DotsSector(no, p));
      var ok;
      ok, c := SyncDirEntry(p, DirEntry(name, no, FT_DIRECTORY));
      if !ok {
        ib := ib[no := false];
        assert ib == s.ib;
        return -2, i, c, b, x, y;
      }
      y := S();
      ghost var s2 := RecordDir(p, no, lba, s, x, c, DirEntry(name, no, FT_DIRECTORY));
      r := 0;
    }

    /** sys_mkdir, once the parent directory is resolved. When a block for the new directory is there
        but its entry does not fit, the inode is given back and the block is not. */
    method MakeDir(p: nat, name: seq<byte>) returns (r: int, i: nat, ghost c: nat, ghost lost: set<nat>)
      requires Inv(S()) && p in dirs && Storable(DirEntry(name, 0, FT_DIRECTORY)) && name != []
      requires FirstClear(ib) < 256
      modifies this`disk, this`bb, this`ib, this`itab, this`mem, this`own, this`nodes, this`dirs, this`par
      ensures Inv(S()) && (r == 0 || r == -1)
      ensures r == 0 <==> !NameIn(old(S()), p, name) && FirstClear(old(ib)) != -1
                          && |FreeBlocks(old(S()))| >= 1 + EntryNeed(V(old(S()), p))
      ensures lost != {} <==> !NameIn(old(S()), p, name) && FirstClear(old(ib)) != -1
                              && 0 < |FreeBlocks(old(S()))| <= EntryNeed(V(old(S()), p))
      ensures r == -1 ==> MkdirFailed(old(S()), S(), lost)
      ensures r == -1 ==> if lost == {} then S() == old(S()) else MkdirLost(old(S()), S(), p, lost)
      ensures r == 0 ==> i == FirstClear(old(ib)) && DirMade(old(S()), S(), p, i, c, DirEntry(name, i, FT_DIRECTORY))
                         && MkdirStep(old(S()), S(), p, i, c, DirEntry(name, i, FT_DIRECTORY))
    {
      hide V, Inv, Core, OpenOk, DirMade, DirOpened, DirClosed, Slots, MkdirFailed, BlockTaken, DirCreated, FreeBlocks,
           EntryNeed, MkdirStep, MkdirLost, DotsSector, NameIn;
      ghost var s := S();
      InvFacts(s);
      DirOpen(p);
      ghost var s1 := S();
      OpenedKeeps(s, s1, p);
      OpenedFields(s, s1, p);
      DirsAreInodes(s, p);
      SameNames(s, s1, p, name);
      ghost var b, x, y;
      r, i, c, b, x, y := MakeDirHere(p, name);
      ghost var s2 := S();
      lost := if r == -2 then {b} else {};
      DirClose(p);
      if r == 0 {
        MkdirFrom(s, s1, x, y, s2, S(), p, i, b, c, DirEntry(name, i, FT_DIRECTORY));
        NotNamed(s1, p, name);
        InvDirMade(s, s1, x, y, s2, S(), p, i, b, c, DirEntry(name, i, FT_DIRECTORY));
      } else if r == -2 {
        LostFrom(s, s1, x, s2, S(), p, b, DotsSector(i, p));
        InvMkdirFailed(s, s1, x, s2, S(), p, b, DotsSector(i, p));
        r := -1;
      } else {
        OpenedClosed(s, s1, S(), p);
        MkdirNothing(s);
      }
    }

    /** Directory p and the new inode i synced. */
    method SyncBoth(p: nat, n: Inode, i: nat)
      requires p in mem && mem[p].node.no == p < 256 <= |itab| && i < 256
      modifies this`itab
      ensures itab == old(itab)[p := mem[p].node][i := n]
    {
      InodeSync(p);
      itab := itab[i := n];
    }

    /** The tail of sys_mkdir: both inodes synced. */
    method RecordDir(p: nat, i: nat, lba: nat, ghost s: Fs, ghost x: Fs, ghost c: nat, ghost e: DirEntry)
      returns (ghost s2: Fs)
      requires Core(s) && p in s.dirs && p in s.mem && i < 256 && i < |s.ib| && !s.ib[i] && i !in s.mem
      requires BlockTaken(s, x, lba, DotsSector(i, p)) && x.ib == s.ib[i := true] && x.itab == s.itab && x.mem == s.mem
      requires EntrySynced(x, S(), p, c, e) && e.ino == i && e.ftype == FT_DIRECTORY && p < WORD
      modifies this`itab, this`own, this`nodes, this`dirs, this`par
      ensures s2 == S() && DirCreated(s, x, old(S()), S(), p, i, lba, c, e) && p in mem && mem == old(mem)
      ensures mem[p].cnt == s.mem[p].cnt
    {
      hide V, Core, EntrySynced, BlockTaken, DotsSector, DirCreated, NewDirInode;
      ghost var y := S();
      SyncedDirMem(s, x, y, p, c, e, lba, DotsSector(i, p));
      CoreFacts(s, p);
      SyncBoth(p, NewDirInode(i, lba), i);
      own := own[lba := (i, 0)];
      nodes := nodes + {i};
      dirs := dirs + {i};
      par := par[i := (p, c)];
      s2 := S();
      DirCreatedFromParts(s, x, y, s2, p, i, lba, c, e);
    }

    /** dir_remove, and the closing of the removed directory. Its assertions that the directory
        has no block but the first hold. */
    method DirRemove(p: nat, i: nat, ghost c: nat, ghost s1: Fs) returns (ghost m: Fs)
      requires Core(s1) && p in s1.dirs && p in s1.mem && s1.mem[p].cnt >= 1 && i in s1.dirs && AlsoOpened(s1, S(), i)
      requires c < 2940 && i != 0 && i in s1.nodes
      requires i != p ==> Counts(Slots(V(s1, p))[c]) && Slots(V(s1, p))[c].ino == i && c >= 2
      requires forall x :: 2 <= x < 2940 ==> !Live(Slots(V(s1, i))[x])
      modifies this`disk, this`bb, this`ib, this`itab, this`mem, this`own, this`nodes, this`dirs, this`par
      ensures i != p ==> NodeRemoved(s1, m, S(), p, i, c) && S().mem == m.mem
      ensures i == p ==> SelfGone(s1, S(), p)
    {
      hide V, Core, NodeRemoved, Slots, Counts, Live, Released;
      ghost var si := S();
      AlsoKeeps(s1, si, i);
      PartsOfView(si, i);
      NoFurtherBlocks(s1, i);
      assert forall k :: 0 <= k < 12 ==> mem[i].node.sec[..12][k] == V(si, i).ab[..12][k];
      assert forall k :: 1 <= k < 13 ==> mem[i].node.sec[k] == 0;
      ghost var mi := RemoveNode(p, i, c);
      ghost var s2 := S();
      if i == p {
        m := s1;
      } else {
        RemovedMem(si, mi, s2, p, i, c);
        m := mi.(mem := ClosedMem(mi.mem, i));
      }
      InodeClose(i);
      if i == p {
        SelfGoneWithout(s1, si, s2, S(), p);
      } else {
        NodeRemovedWithout(s1, si, mi, s2, S(), p, i, c);
      }
    }

    /** The part of sys_rmdir for a directory i: opened, tested for being empty, removed, and closed. */
    method RemoveIfEmpty(p: nat, i: nat, ghost c: nat, ghost s: Fs) returns (done: bool, ghost m: Fs)
      requires Inv(s) && p in s.dirs && DirOpened(s, S(), p) && c < 2940 && i in s.dirs && i in s.nodes && i != 0
      requires i < |s.itab|
      requires i != p && (forall x :: 2 <= x < 2940 ==> !Live(Slots(V(s, i))[x])) ==>
                 Counts(Slots(V(s, p))[c]) && Slots(V(s, p))[c].ino == i && c >= 2
      modifies this`disk, this`bb, this`ib, this`itab, this`mem, this`own, this`nodes, this`dirs, this`par
      ensures done <==> forall x :: 2 <= x < 2940 ==> !Live(Slots(V(s, i))[x])
      ensures !done ==> S() == old(S())
      ensures done && i != p ==> NodeRemoved(old(S()), m, S(), p, i, c) && S().mem == m.mem
      ensures done && i == p ==> SelfGone(old(S()), S(), p)
    {
      hide V, Inv, Core, NodeRemoved, DirOpened, Slots, Live, SelfGone, Counts;
      ghost var s1 := S();
      InvFacts(s);
      OpenedKeeps(s, s1, p);
      OpenedFields(s, s1, p);
      DirsAreInodes(s, p);
      m := s1;
      InodeOpen(i);
      ghost var si := S();
      AlsoKeeps(s1, si, i);
      HeadOfView(si, i);
      EmptyChildSize(s, i);
      done := mem[i].node.size == 48;
      if done {
        m := DirRemove(p, i, c, s1);
      } else {
        InodeClose(i);
        assert mem == s1.mem;
      }
    }

    /** sys_rmdir, once the parent directory is resolved; the code asserts that the inode found is not 0.
        The invariant is kept unless the directory is on the open list, or is asked to remove itself. */
    method RemoveDir(p: nat, name: seq<byte>) returns (r: int, i: nat, ghost c: nat)
      requires Inv(S()) && p in dirs && name != []
      requires (name == DOT ==> p != 0) && (name == DOTDOT ==> ParentOf(par, p) != 0)
      modifies this`disk, this`bb, this`ib, this`itab, this`mem, this`own, this`nodes, this`dirs, this`par
      ensures r == 0 || r == -1
      ensures r == 0 <==> exists x :: 0 <= x < 2940 && EmptyChild(old(S()), p, x, name)
      ensures name == DOTDOT ==> r == -1
      ensures r == -1 ==> S() == old(S())
      ensures r == 0 ==>
                i in old(dirs) && c < 2940 && EmptyChild(old(S()), p, c, name) && Slots(V(old(S()), p))[c].ino == i
      ensures r == 0 && name != DOT ==>
                Core(S()) && NodeGone(old(S()), S(), p, i, c) && RemoveStep(old(S()), S(), p, i, c)
      ensures r == 0 && name == DOT ==>
                i == p && SelfGone(old(S()), S(), p) && p in old(par) && Dangling(S(), old(par)[p].0, old(par)[p].1)
      ensures Inv(S()) <==> r == -1 || (name != DOT && i !in old(mem))
      ensures r == 0 && i in old(mem) ==> i in mem
    {
      hide V, Inv, Core, OpenOk, NodeRemoved, NodeGone, DirOpened, DirClosed, Slots, Live, SelfGone, Dangling,
           RemoveStep, Counts;
      ghost var s := S();
      InvFacts(s);
      DirOpen(p);
      ghost var s1 := S();
      OpenedKeeps(s, s1, p);
      OpenedFields(s, s1, p);
      DirsAreInodes(s, p);
      var found, e;
      found, e, c := SearchDirEntry(p, name);
      r, i := -1, 0;
      if found {
        FoundSlot(s, p, c);
        OnlyOneNamed(s, p, c, name);
        if e.ftype == FT_DIRECTORY {
          i := e.ino;
          FoundDir(s, p, c, name);
          var done;
          ghost var m;
          done, m := RemoveIfEmpty(p, i, c, s);
          if done {
            r := 0;
            assert EmptyChild(s, p, c, name);
            if i == p {
              SelfMem(s1, S(), p);
            } else {
              RemovedFields(s1, m, S(), p, i, c);
            }
            ghost var s2 := S();
            DirClose(p);
            if i == p {
              SelfGoneClosed(s, s1, s2, S(), p);
              SelfMem(s, S(), p);
              SelfGoneDangles(s, S(), p);
            } else {
              RemoveFrom(s, s1, m, s2, S(), p, i, c);
              InvNodeGone(s, s1, m, s2, S(), p, i, c);
            }
            return;
          }
        }
      }
      DirClose(p);
      OpenedClosed(s, s1, S(), p);
    }

    // ---- open files ----

    /** file_close. */
    method CloseSlot(fd: nat)
      requires fd < |files| && files[fd].Open? && files[fd].ino in mem && mem[files[fd].ino].cnt >= 1
      modifies this`files, this`mem
      ensures SlotClosed(old(S()), S(), fd)
    {
      ghost var m := mem;
      var f := files[fd].ino;
      mem := mem[f := mem[f].(deny := false)];
      InodeClose(f);
      files := files[fd := Closed];
      assert m[f].cnt == 1 ==> m[f := m[f].(deny := false)] - {f} == m - {f};
    }

    method FileClose(fd: nat)
      requires Inv(S()) && fd < 32 && fd < |files| && files[fd].Open?
      modifies this`files, this`mem
      ensures Inv(S()) && SlotClosed(old(S()), S(), fd) && Leaked(S()) == Leaked(old(S()))
      ensures FreeBlocks(S()) == FreeBlocks(old(S()))
    {
      hide V, Inv, FreeBlocks;
      ghost var s := S();
      OpenFileFacts(s, fd);
      CloseSlot(fd);
      InvSlotClosed(s, S(), fd);
      SameFree(s, S());
    }

    /** sys_close on a descriptor of a regular file. */
    method SysClose(fd: nat)
      requires Inv(S()) && 2 < fd < 8 && 0 <= fds[fd] < 32 && fds[fd] < |files| && files[fds[fd]].Open?
      modifies this`files, this`mem, this`fds
      ensures Inv(S()) && SlotClosed(old(S()), S(), old(fds)[fd]) && Leaked(S()) == Leaked(old(S()))
      ensures FreeBlocks(S()) == FreeBlocks(old(S())) && fds == old(fds)[fd := -1]
    {
      hide V, Inv, Leaked, FreeBlocks, SlotClosed;
      FileClose(fds[fd]);
      fds := fds[fd := -1];
    }

    /** sys_write on an open file: -1 when it was not opened for writing, would grow too large, or
        finds too few blocks. */
    method Write(fd: nat, buf: seq<byte>) returns (r: int)
      requires Inv(S()) && fd < 32 && fd < |files| && files[fd].Open?
      requires mem[files[fd].ino].node.size + |buf| != MAX_SIZE
      modifies this`disk, this`bb, this`mem, this`own, this`itab, this`files
      ensures r == -1 <==> !Writes(old(files)[fd].flag) || old(mem[files[fd].ino].node.size) + |buf| > MAX_SIZE
                           || |FreeBlocks(old(S()))| < TotalNeed(old(V(S(), files[fd].ino)), |buf|)
      ensures r != -1 ==> r == |buf| && Inv(S()) && Wrote(old(S()), S(), fd, buf) && Leaked(S()) == Leaked(old(S()))
                          && |FreeBlocks(S())| + TotalNeed(old(V(S(), files[fd].ino)), |buf|) == |FreeBlocks(old(S()))|
      ensures !Writes(old(files)[fd].flag) || old(mem[files[fd].ino].node.size) + |buf| > MAX_SIZE ==> S() == old(S())
    {
      hide V, Inv, Wrote, FreeBlocks, TotalNeed, FileShape, Owned;
      ghost var s := S();
      OpenFileFacts(s, fd);
      if !Writes(files[fd].flag) {
        return -1;
      }
      r := FileWrite(fd, buf);
      if r != -1 {
        InvWrote(s, S(), fd, buf);
        WroteTakes(s, S(), fd, buf);
      }
    }

    /** sys_read on an open file: the bytes from the position on, which moves behind them. */
    method Read(fd: nat, count: nat) returns (r: int, data: seq<byte>)
      requires Inv(S()) && fd < 32 && fd < |files| && files[fd].Open? && files[fd].pos <= mem[files[fd].ino].node.size
      requires Blk(files[fd].pos + count) < 139 || Blk(mem[files[fd].ino].node.size) < 139
      modifies this`files
      ensures Inv(S())
      ensures var v := old(V(S(), files[fd].ino));
              var pos := old(files)[fd].pos;
              && v.size <= MAX_SIZE
              && (r == -1 <==> pos == v.size && count > 0)
              && (r != -1 ==> r == |data| && r == (if pos + count > v.size then v.size - pos else count)
                              && data == Content(v)[pos..pos + r])
      ensures r == -1 ==> S() == old(S())
      ensures r != -1 ==> S() == old(S()).(files := old(files)[fd := old(files)[fd].(pos := old(files)[fd].pos + r)])
                          && V(S(), files[fd].ino) == old(V(S(), files[fd].ino))
    {
      hide V, Inv, FileShape, Content, Blk, Owned;
      ghost var s := S();
      OpenFileFacts(s, fd);
      ShapeBlocks(V(s, files[fd].ino));
      r, data := FileRead(fd, count);
      if r != -1 {
        InvMoved(s, S(), fd, s.files[fd].pos + |data|);
      }
    }
  }
}
