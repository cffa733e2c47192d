/** How many data blocks the operations take, told by what the inodes own before and after. */
module Room {
  import opened Codec
  import opened Store
  import opened Moves
  import opened Directory
  import opened DirMoves
  import opened FileMoves
  import opened Consistency
  import opened Tree
  import opened Counting

  /** The blocks that inode i owns. */
  ghost function Holds(s: Fs, i: nat): set<nat> {
    set b | b in s.own && s.own[b].0 == i
  }

  /** The blocks that an inode refers to. */
  function Used(v: View): set<nat> {
    set k: nat | k <= 140 && Ref(v, k) != 0 :: Ref(v, k)
  }

  lemma HoldsUsed(s: Fs, i: nat)
    requires Owned(s)
    ensures i in s.nodes ==> Holds(s, i) == Used(V(s, i))
    ensures i !in s.nodes ==> Holds(s, i) == {}
  {
    hide V, Marked;
    var vs := Views(s);
    if i in s.nodes {
      forall b | b in Used(V(s, i))
        ensures b in Holds(s, i)
      {
        var k: nat :| k <= 140 && Ref(V(s, i), k) == b;
        OwnerOf(s, i, k);
      }
      forall b | b in Holds(s, i)
        ensures b in Used(V(s, i))
      {
        assert Ref(vs[i], s.own[b].1) == b;
      }
    }
  }

  /** The data blocks are the free ones, the lost ones and those that inodes own. */
  lemma Partitioned(s: Fs, b: nat)
    requires Owned(s)
    ensures b in FreeBlocks(s) <==> s.ds <= b < |s.disk| && b !in s.own && b !in Leaked(s)
    ensures b in s.own ==> s.ds <= b < |s.disk| && b !in Leaked(s)
  {
    hide OwnedBy;
  }

  /** When no block is lost and the other inodes keep theirs, what one inode gains is what is free no more. */
  lemma FreeDelta(s: Fs, s': Fs, i: nat)
    requires Owned(s) && Owned(s') && s'.ds == s.ds && |s'.disk| == |s.disk| && Leaked(s') == Leaked(s)
    requires forall j :: j != i ==> Holds(s', j) == Holds(s, j)
    ensures |FreeBlocks(s')| + |Holds(s', i)| == |FreeBlocks(s)| + |Holds(s, i)|
  {
    hide Owned, Leaked, FreeBlocks;
    forall b
      ensures b in FreeBlocks(s) || b in Holds(s, i) <==> b in FreeBlocks(s') || b in Holds(s', i)
      ensures !(b in FreeBlocks(s) && b in Holds(s, i)) && !(b in FreeBlocks(s') && b in Holds(s', i))
    {
      Partitioned(s, b);
      Partitioned(s', b);
      if b in s.own {
        assert b in Holds(s, s.own[b].0);
        assert s.own[b].0 != i ==> b in Holds(s', s.own[b].0);
      }
      if b in s'.own {
        assert b in Holds(s', s'.own[b].0);
        assert s'.own[b].0 != i ==> b in Holds(s, s'.own[b].0);
      }
    }
    assert FreeBlocks(s) + Holds(s, i) == FreeBlocks(s') + Holds(s', i);
    assert FreeBlocks(s) !! Holds(s, i) && FreeBlocks(s') !! Holds(s', i);
  }

  /** The same, told by views. */
  lemma ViewDelta(s: Fs, s': Fs, i: nat)
    requires Owned(s) && Owned(s') && s'.ds == s.ds && |s'.disk| == |s.disk| && Leaked(s') == Leaked(s)
    requires i in s.nodes && s'.nodes == s.nodes && OthersSame(s, s', i)
    ensures |FreeBlocks(s')| + |Used(V(s', i))| == |FreeBlocks(s)| + |Used(V(s, i))|
  {
    hide V, Owned, Leaked, FreeBlocks, Holds, Used;
    forall j | j != i
      ensures Holds(s', j) == Holds(s, j)
    {
      HoldsUsed(s, j);
      HoldsUsed(s', j);
    }
    HoldsUsed(s, i);
    HoldsUsed(s', i);
    FreeDelta(s, s', i);
  }

  /** The allocator fails exactly when no data block is free, and otherwise takes one. */
  lemma AllocCounts(s: Fs, s': Fs, lba: int)
    requires Geometry(s) && BlockAllocated(s, s', lba)
    ensures lba == -1 <==> |FreeBlocks(s)| == 0
    ensures lba != -1 ==> |FreeBlocks(s')| + 1 == |FreeBlocks(s)| && Geometry(s')
  {
    if lba == -1 {
      NoFree(s, s');
    } else {
      FreeShrinks(s, s', lba);
      assert forall x :: Bit(s', x) == (Bit(s, x) || x == lba);
    }
  }

  // ---- regular files ----

  /** The first n block references. */
  function FirstUsed(v: View, n: nat): set<nat>
    requires n <= 140
  {
    set k: nat | k < n && Ref(v, k) != 0 :: Ref(v, k)
  }

  /** No block is referred to twice. */
  predicate NoTwice(v: View) {
    forall k: nat, l: nat :: k < l <= 140 && Ref(v, k) != 0 ==> Ref(v, l) != Ref(v, k)
  }

  lemma OwnedNoTwice(s: Fs, i: nat)
    requires Owned(s) && i in s.nodes
    ensures NoTwice(V(s, i))
  {
    hide V, Owned;
    forall k: nat, l: nat | k < l <= 140 && Ref(V(s, i), k) != 0
      ensures Ref(V(s, i), l) != Ref(V(s, i), k)
    {
      OwnerOf(s, i, k);
      OwnerOf(s, i, l);
    }
  }

  lemma FirstUsedMore(v: View, n: nat)
    requires n < 140 && NoTwice(v) && Ref(v, n) != 0
    ensures FirstUsed(v, n + 1) == FirstUsed(v, n) + {Ref(v, n)} && Ref(v, n) !in FirstUsed(v, n)
  {
    hide Ref;
    assert forall b :: b in FirstUsed(v, n + 1) ==> b in FirstUsed(v, n) || b == Ref(v, n);
  }

  lemma {:induction false} FirstUsedSize(v: View, n: nat)
    requires n <= 140 && NoTwice(v) && forall k: nat :: k < n ==> Ref(v, k) != 0
    ensures |FirstUsed(v, n)| == n
  {
    if n > 0 {
      FirstUsedSize(v, n - 1);
      FirstUsedMore(v, n - 1);
    } else {
      assert FirstUsed(v, 0) == {};
    }
  }

  /** A file with n blocks refers to these, and to its table beyond the direct ones. */
  lemma FileUses(v: View, n: nat)
    requires NoTwice(v) && Blocks(v, n)
    ensures |Used(v)| == n + if n > 12 then 1 else 0
  {
    FirstUsedSize(v, n);
    if n > 12 {
      assert Used(v) == FirstUsed(v, n) + {Ref(v, 140)};
      assert Ref(v, 140) !in FirstUsed(v, n);
    } else {
      assert Used(v) == FirstUsed(v, n);
    }
  }

  /** A write takes exactly the blocks it needs. */
  lemma WriteTakes(s: Fs, s': Fs, i: nat, n: nat)
    requires Owned(s) && Owned(s') && s'.ds == s.ds && |s'.disk| == |s.disk| && Leaked(s') == Leaked(s)
    requires i in s.nodes && s'.nodes == s.nodes && OthersSame(s, s', i)
    requires FileShape(V(s, i)) && FileShape(V(s', i)) && V(s', i).ab[0] != 0 && V(s', i).size == V(s, i).size + n
    ensures |FreeBlocks(s')| + TotalNeed(V(s, i), n) == |FreeBlocks(s)|
  {
    hide V, Owned, Leaked, FreeBlocks, Used, Blocks, FileShape;
    ViewDelta(s, s', i);
    OwnedNoTwice(s, i);
    OwnedNoTwice(s', i);
    ShapeBlocks(V(s, i));
    ShapeBlocks(V(s', i));
    FileUses(V(s, i), if V(s, i).ab[0] == 0 then 0 else Blk(V(s, i).size) + 1);
    FileUses(V(s', i), Blk(V(s', i).size) + 1);
  }

  /** Two writes need what one write of both needs. */
  lemma NeedAdds(v: View, v': View, m: nat, n: nat)
    requires v'.size == v.size + m && v'.ab[0] != 0
    ensures TotalNeed(v, m) + TotalNeed(v', n) == TotalNeed(v, m + n)
  {}

  lemma NeedGrows(v: View, m: nat, n: nat)
    requires m <= n
    ensures TotalNeed(v, m) <= TotalNeed(v, n)
  {}

  // ---- directories ----

  /** The blocks that came with an entry. */
  function Came(v: View, v': View, k: nat): set<nat>
    requires k < 140
  {
    (if v.ab[k] == 0 then {v'.ab[k]} else {}) + (if v.tab == 0 && v'.tab != 0 then {v'.tab} else {})
  }

  /** An entry takes exactly the blocks it needs. */
  lemma AddedUses(v: View, v': View, c: nat, e: DirEntry)
    requires DirShape(v) && Added(v, v', c, e) && NoTwice(v') && (v.tab == 0 || v.ab[12] != 0)
    ensures |Used(v')| == |Used(v)| + EntryNeed(v) && FirstDead(Slots(v)) == c
  {
    hide Slots, SlotShape, HasLive, CountLive;
    var k := c / 21;
    DeadIsFirst(Slots(v), c);
    if k >= 12 && v.tab == 0 {
      TableWith12(v, c);
    }
    assert forall l: nat :: l <= 140 && Ref(v, l) != 0 ==> Ref(v', l) == Ref(v, l);
    UsedMore(v, v', k);
    assert Came(v, v', k) !! Used(v) by {
      assert Ref(v', k) == v'.ab[k] && Ref(v', 140) == v'.tab;
    }
    assert v.ab[k] == 0 && v.tab == 0 && v'.tab != 0 ==> v'.ab[k] != v'.tab by {
      assert Ref(v', k) == v'.ab[k] && Ref(v', 140) == v'.tab;
    }
  }

  lemma UsedMore(v: View, v': View, k: nat)
    requires k < 140 && v'.ab[k] != 0 && (v.ab[k] != 0 ==> v'.ab[k] == v.ab[k])
    requires (forall l :: 0 <= l < 140 && l != k ==> v'.ab[l] == v.ab[l]) && (v.tab != 0 ==> v'.tab == v.tab)
    ensures Used(v') == Used(v) + Came(v, v', k)
  {
    forall b | b in Used(v) + Came(v, v', k)
      ensures b in Used(v')
    {
      if b in Used(v) {
        var l: nat :| l <= 140 && Ref(v, l) == b != 0;
        assert Ref(v', l) == b;
      } else {
        assert b == Ref(v', k) || b == Ref(v', 140);
      }
    }
    forall b | b in Used(v')
      ensures b in Used(v) + Came(v, v', k)
    {
      var l: nat :| l <= 140 && Ref(v', l) == b != 0;
      assert l != k && l != 140 ==> Ref(v, l) == b;
      assert Ref(v, l) != 0 ==> Ref(v, l) == b;
    }
  }

  /** Beyond block 12 a lowest dead slot leaves block 12 full. */
  lemma Block12There(v: View, c: nat)
    requires DirShape(v) && 273 <= c < 2940 && forall x :: 0 <= x < c ==> Live(Slots(v)[x])
    ensures v.ab[12] != 0
  {
    hide Slots, SlotShape, CountLive;
    assert Live(Slots(v)[252]);
    assert HasLive(Slots(v), 12);
  }

  /** Before there is a table, the lowest dead slot is at most in block 12, which is not there. */
  lemma TableWith12(v: View, c: nat)
    requires DirShape(v) && v.tab == 0 && c < 2940 && forall x :: 0 <= x < c ==> Live(Slots(v)[x])
    ensures c / 21 <= 12 && v.ab[12] == 0
  {
    hide Slots, SlotShape, CountLive, HasLive;
    if c >= 273 {
      Block12There(v, c);
    }
  }

  // ---- where sync_dir_entry stops ----

  lemma StopsAtNew(v: View, k: nat)
    requires k < 140 && v.ab[k] == 0 && forall l, i :: 0 <= l < k && 0 <= i < 21 ==> Live(Block(v, l)[i])
    ensures FirstDead(Slots(v)) < 2940 && EntryNeed(v) == if k == 12 then 2 else 1
  {
    hide Slots, Block;
    assert !Live(Block(v, k)[0]) by {
      BlockNone(v, k);
    }
    EarlierLive(v, k, 0);
    SlotOfBlock(v, k, 0);
    SlotIndex(k, 0);
    DeadIsFirst(Slots(v), 21 * k);
  }

  lemma BlockNone(v: View, k: nat)
    requires k < 140 && v.ab[k] == 0
    ensures Block(v, k)[0] == DEAD
  {}

  lemma StopsInBlock(v: View, k: nat, j: nat)
    requires k < 140 && j < 21 && v.ab[k] != 0 && forall l, i :: 0 <= l < k && 0 <= i < 21 ==> Live(Block(v, l)[i])
    requires !Live(Block(v, k)[j]) && forall i :: 0 <= i < j ==> Live(Block(v, k)[i])
    ensures FirstDead(Slots(v)) < 2940 && EntryNeed(v) == 0
  {
    hide Slots, Block;
    EarlierLive(v, k, j);
    SlotOfBlock(v, k, j);
    SlotIndex(k, j);
    DeadIsFirst(Slots(v), 21 * k + j);
  }

  lemma StopsNowhere(v: View)
    requires forall l, i :: 0 <= l < 140 && 0 <= i < 21 ==> Live(Block(v, l)[i])
    ensures FirstDead(Slots(v)) == 2940
  {
    hide Slots, Block;
    forall x | 0 <= x < 2940
      ensures Live(Slots(v)[x])
    {
      BlockOfSlot(v, x);
    }
    NoneDead(Slots(v));
  }

  // ---- what calls take ----

  lemma WroteTakes(s: Fs, s': Fs, fd: nat, bytes: seq<byte>)
    requires Inv(s) && Wrote(s, s', fd, bytes) && fd < 32
    ensures |FreeBlocks(s')| + TotalNeed(V(s, s.files[fd].ino), |bytes|) == |FreeBlocks(s)|
  {
    hide V, Inv, Owned, Leaked, FreeBlocks, TotalNeed, FileShape, Content, OthersSame;
    var f := s.files[fd].ino;
    var m := s'.(itab := s.itab, files := s.files);
    OpenFileFacts(s, fd);
    WroteNodes(s, s', fd, bytes);
    GrewSize(s, m, f, bytes);
    HeadOfView(m, f);
    WriteTakes(s, m, f, |bytes|);
    SameFree(m, s');
  }

  lemma NothingUsed(v: View)
    requires Blocks(v, 0)
    ensures Used(v) == {}
  {}

  lemma SameHolds(s: Fs, s': Fs, j: nat)
    requires Owned(s) && Owned(s') && (j in s.nodes <==> j in s'.nodes) && (j in s.nodes ==> V(s', j) == V(s, j))
    ensures Holds(s', j) == Holds(s, j)
  {
    hide V, Owned, Holds, Used;
    HoldsUsed(s, j);
    HoldsUsed(s', j);
  }

  lemma NoHolds(s: Fs, s': Fs, i: nat)
    requires Owned(s) && Owned(s') && i !in s.nodes && i in s'.nodes && Blocks(V(s', i), 0)
    ensures Holds(s', i) == Holds(s, i)
  {
    hide V, Owned, Holds, Used, Blocks;
    HoldsUsed(s, i);
    HoldsUsed(s', i);
    NothingUsed(V(s', i));
  }

  /** Making a file takes the blocks that its entry needs. */
  lemma MadeTakes(s: Fs, s': Fs, p: nat, i: nat, c: nat, fd: nat, e: DirEntry, flag: nat)
    requires Inv(s) && Inv(s') && p in s.dirs && FileMade(s, s', p, i, c, fd, e, flag)
    ensures |FreeBlocks(s')| + EntryNeed(V(s, p)) == |FreeBlocks(s)|
  {
    hide V, OwnedBy, Geometry, DirOk, FileShape, TreeOk, OpenOk, Numbered, Leaked, FreeBlocks, EntryNeed, Used, Holds,
         Added, Blocks;
    forall j | j != p
      ensures Holds(s', j) == Holds(s, j)
    {
      if j == i {
        NoHolds(s, s', i);
      } else {
        SameHolds(s, s', j);
      }
    }
    FreeDelta(s, s', p);
    HoldsUsed(s, p);
    HoldsUsed(s', p);
    CoreFacts(s, p);
    OwnedNoTwice(s', p);
    AddedUses(V(s, p), V(s', p), c, e);
  }

  /** A directory below 256 inodes always has a dead slot. */
  lemma DeadThere(s: Fs, p: nat)
    requires Core(s) && p in s.dirs
    ensures FirstDead(Slots(V(s, p))) < 273
  {
    hide V, Slots, Core, CountLive;
    Few(s, p);
    FewEntries(V(s, p));
    if FirstDead(Slots(V(s, p))) >= 273 {
      CountPrefix(Slots(V(s, p)), 273);
    }
  }

  lemma OwnedGeometry(s: Fs)
    requires Owned(s)
    ensures Geometry(s)
  {}

  lemma SameRoom(s: Fs, a: Fs)
    requires a == s.(ib := a.ib, files := a.files) && Geometry(s)
    ensures FreeBlocks(a) == FreeBlocks(s) && Geometry(a)
  {
    assert forall x :: Bit(a, x) == Bit(s, x);
  }

  /** A block that was taken is free no more. */
  lemma TakenRoom(s: Fs, x: Fs, b: nat, sector: Sector)
    requires BlockTaken(s, x, b, sector)
    ensures |FreeBlocks(x)| + 1 == |FreeBlocks(s)|
  {
    FreeShrinks(s, x, b);
  }
}
