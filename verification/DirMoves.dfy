/** The three ways sync_dir_entry finds room for an entry, and what each does to the directory. */
module DirMoves {
  import opened Codec
  import opened Store
  import opened Moves
  import opened Directory

  /** What block_bitmap_alloc did: the lowest clear bit is set, or there is none. */
  ghost predicate BlockAllocated(s: Fs, s': Fs, lba: int) {
    if lba == -1 then s' == s && forall b :: s.ds <= b < s.ds + |s.bb| ==> Bit(s, b)
    else
      && s.ds <= lba < s.ds + |s.bb| && !Bit(s, lba) && s' == s.(bb := s.bb[lba - s.ds := true])
      && forall b :: s.ds <= b < lba ==> Bit(s, b)
  }

  /** The allocator's answer is a free data block: the padding bits are all set. */
  lemma LowestFree(s: Fs, s': Fs, lba: nat)
    requires Owned(s) && BlockAllocated(s, s', lba)
    ensures FreeBlock(s, lba) && lba !in s.own && 0 < lba < WORD && lba < |s.disk| && lba - s.ds < |s.bb|
    ensures s' == s.(bb := s.bb[lba - s.ds := true])
    ensures forall x :: s.ds <= x < s.ds + |s.bb| ==> s'.bb[x - s.ds] == (Bit(s, x) || x == lba)
  {}

  lemma NoneAllocated(s: Fs, s': Fs)
    requires BlockAllocated(s, s', -1)
    ensures s' == s
  {}

  /** Two allocations in a row. */
  ghost predicate TwoAllocated(s: Fs, s2: Fs, a: int, b: int) {
    && a >= 0 && b >= 0 && FreeBlock(s, a) && FreeBlock(s, b) && a != b
    && s2 == s.(bb := s2.bb) && |s2.bb| == |s.bb|
    && forall x :: s.ds <= x < s.ds + |s.bb| ==> s2.bb[x - s.ds] == (Bit(s, x) || x == a || x == b)
  }

  lemma TwoAllocatedFree(s: Fs, s2: Fs, a: int, b: int)
    requires Owned(s) && TwoAllocated(s, s2, a, b)
    ensures 0 <= a < |s.disk| && 0 < b < |s.disk| && b < WORD && a != b && FreeBlock(s, a) && FreeBlock(s, b)
    ensures s2 == s.(bb := s2.bb) && |s2.bb| == |s.bb|
    ensures forall x :: s.ds <= x < s.ds + |s.bb| ==> s2.bb[x - s.ds] == (Bit(s, x) || x == a || x == b)
  {}

  lemma TwoFree(s: Fs, s1: Fs, s2: Fs, a: nat, b: nat)
    requires Owned(s) && BlockAllocated(s, s1, a) && BlockAllocated(s1, s2, b)
    ensures TwoAllocated(s, s2, a, b)
  {
    LowestFree(s, s1, a);
    assert forall x :: Bit(s1, x) == (Bit(s, x) || x == a);
    assert Geometry(s1);
  }

  /** An allocation that is undone. */
  lemma Unallocate(s: Fs, s1: Fs, a: nat)
    requires BlockAllocated(s, s1, a)
    ensures s.ds <= a && a - s.ds < |s1.bb| && s1.bb[a - s.ds := false] == s.bb
    ensures s1 == s.(bb := s1.bb)
  {}

  /** Entry j of a block that is there is overwritten. */
  ghost predicate PutInPlace(s: Fs, s': Fs, d: nat, k: nat, j: nat, e: DirEntry, size: nat)
    requires k < 140 && j < 21
  {
    var v, v' := V(s, d), V(s', d);
    && SameRest(s, s') && s'.bb == s.bb && s'.own == s.own && OnlyNode(s.mem, s'.mem, d) && LostKept(s, s')
    && Owned(s') && OthersSame(s, s', d) && Leaked(s') == Leaked(s)
    && 21 * k + j < 2940 && Slots(v') == Slots(v)[21 * k + j := e]
    && v'.ab == v.ab && v'.tab == v.tab && v'.size == size
  }

  function EntryRewritten(s: Fs, d: nat, k: nat, j: nat, e: DirEntry, size: nat): Fs
    requires d in s.mem && k < 140 && j < 21 && Storable(e) && V(s, d).ab[k] < |s.disk|
  {
    Rewritten(s, d, V(s, d).ab[k], PutEntry(At(s.disk, V(s, d).ab[k]), j, e), size)
  }

  lemma RewriteEntry(s: Fs, d: nat, k: nat, j: nat, e: DirEntry, size: nat)
    requires Owned(s) && d in s.nodes && d in s.mem && k < 140 && j < 21 && Storable(e) && V(s, d).ab[k] != 0
    ensures V(s, d).ab[k] < |s.disk|
    ensures PutInPlace(s, EntryRewritten(s, d, k, j, e, size), d, k, j, e, size)
  {
    hide V, Slots, Owned, PutEntry, Leaked, OthersSame, LostKept, SameRest, OnlyNode;
    var v := V(s, d);
    PartsOfView(s, d);
    SectorAt(s.disk, v.ab, k);
    var buf := At(s.disk, v.ab[k]);
    var sector := PutEntry(buf, j, e);
    OwnerOf(s, d, k);
    Rewrite(s, d, k, sector, size);
    RewriteRest(s, d, v.ab[k], sector, size);
    PutEntryUpdates(buf, j, e);
    SlotsAfterPut(v, v.(size := size, body := v.body[k := sector]), k, j, e);
  }

  lemma RewriteRest(s: Fs, d: nat, b: nat, sector: Sector, size: nat)
    requires d in s.mem && b < |s.disk| && b in s.own
    ensures var s' := Rewritten(s, d, b, sector, size);
            SameRest(s, s') && OnlyNode(s.mem, s'.mem, d) && LostKept(s, s') && s'.bb == s.bb && s'.own == s.own
  {}

  /** Block k, missing before, holds the entry and nothing else. */
  ghost predicate PutInNew(s: Fs, s': Fs, d: nat, k: nat, e: DirEntry)
    requires k < 140
  {
    var v, v' := V(s, d), V(s', d);
    && SameRest(s, s') && OnlyNode(s.mem, s'.mem, d) && LostKept(s, s')
    && Owned(s') && OthersSame(s, s', d) && Leaked(s') == Leaked(s) + Replaced(v.tab, v'.tab)
    && 21 * k < 2940 && Slots(v') == Slots(v)[21 * k := e]
    && v'.ab[k] != 0 && v'.ab == v.ab[k := v'.ab[k]]
    && (v'.tab == v.tab <==> k != 12) && (k >= 12 ==> v'.tab != 0) && v'.size == v.size + 24
  }

  /** A directory that got a new block k for its new entry. */
  lemma DirGrew(s: Fs, s': Fs, d: nat, k: nat, b: nat, added: map<nat, (nat, nat)>, tab: nat, e: DirEntry)
    requires Owned(s) && d in s.nodes && d in s.mem && k < 140 && V(s, d).ab[k] == 0 && Storable(e)
    requires Grows(s, s', d, added, V(s, d).ab[k := b], tab)
    requires b in added && b != 0 && b != tab && At(s'.disk, b) == PutEntry(ZERO_SECTOR, 0, e)
    requires (tab == V(s, d).tab <==> k != 12) && (k >= 12 ==> tab != 0)
    requires d in s'.mem && s'.mem[d].node.size == V(s, d).size + 24
    ensures PutInNew(s, s', d, k, e)
  {
    hide V, SectorsOf, PutEntry, Slots, Owned, Grows, OthersSame, Leaked, AddsRefs, SameRest, Replaced, OnlyNode;
    var v, ab := V(s, d), V(s, d).ab[k := b];
    Grow(s, s', d, added, ab, tab);
    GrowKeepsLost(s, s', d, added, ab, tab);
    ZeroSectorIsDead();
    PutEntryUpdates(ZERO_SECTOR, 0, e);
    forall l | 0 <= l < 140 && l != k && v.ab[l] != 0
      ensures V(s', d).body[l] == v.body[l]
    {
      GrowKeepsSector(s, s', d, added, ab, tab, l);
    }
    SectorAt(s'.disk, ab, k);
    SlotsAfterPut(v, V(s', d), k, 0, e);
  }


  lemma MarkBit(s: Fs, s': Fs, b: nat)
    requires s.ds <= b < s.ds + |s.bb| && s'.ds == s.ds && s'.bb == s.bb[b - s.ds := true]
    ensures forall x :: Bit(s', x) == (Bit(s, x) || x == b)
  {}

  function NewDirect(s: Fs, d: nat, k: nat, b: nat, e: DirEntry): Fs
    requires d in s.mem && k < 12 && s.ds <= b < s.ds + |s.bb| && b < |s.disk| && Storable(e)
  {
    var n := s.mem[d].node;
    PutNode(s.(disk := s.disk[b := PutEntry(ZERO_SECTOR, 0, e)], bb := s.bb[b - s.ds := true],
               own := s.own + map[b := (d, k)]),
            d, n.(sec := n.sec[k := b], size := n.size + 24))
  }

  /** One new block, with the table as it was. */
  lemma AddOneRef(d: nat, v: View, v': View, k: nat, b: nat)
    requires k < 140 && b != 0 && v.ab[k] == 0 && v'.ab == v.ab[k := b] && v'.tab == v.tab
    ensures AddsRefs(d, v, v', map[b := (d, k)])
  {}

  lemma NewDirectStore(s: Fs, d: nat, k: nat, b: nat, e: DirEntry, tab: nat)
    requires d in s.mem && k < 12 && FreeBlock(s, b) && b - s.ds < |s.bb| && Storable(e)
    ensures GrowsStore(s, NewDirect(s, d, k, b, e), map[b := (d, k)], tab, tab)
    ensures At(NewDirect(s, d, k, b, e).disk, b) == PutEntry(ZERO_SECTOR, 0, e)
    ensures tab < |s.disk| && tab != b ==> At(NewDirect(s, d, k, b, e).disk, tab) == At(s.disk, tab)
  {
    hide PutEntry;
    MarkBit(s, NewDirect(s, d, k, b, e), b);
    assert s.own - {} == s.own;
  }

  lemma NewDirectGrows(s: Fs, d: nat, k: nat, b: nat, e: DirEntry)
    requires Owned(s) && d in s.nodes && d in s.mem && k < 12 && V(s, d).ab[k] == 0 && FreeBlock(s, b)
    requires Storable(e)
    ensures s.ds <= b < s.ds + |s.bb| && b < |s.disk| && b !in s.own && b != V(s, d).tab && b != 0
    ensures Grows(s, NewDirect(s, d, k, b, e), d, map[b := (d, k)], V(s, d).ab[k := b], V(s, d).tab)
  {
    hide V, OwnedBy, PutEntry, AddsRefs, SectorsOf, Table, GrowsStore;
    var s' := NewDirect(s, d, k, b, e);
    var v := V(s, d);
    var ab := v.ab[k := b];
    PartsOfView(s, d);
    OwnerOf(s, d, 140);
    NewDirectStore(s, d, k, b, e, v.tab);
    assert ab[12..] == v.ab[12..];
    assert ab[..12] == s'.mem[d].node.sec[..12];
    AddOneRef(d, v, ViewRec(s'.mem[d].node.size, v.tab, ab, SectorsOf(s'.disk, ab)), k, b);
  }

  lemma NewDirectOk(s: Fs, d: nat, k: nat, b: nat, e: DirEntry)
    requires Owned(s) && d in s.nodes && d in s.mem && k < 12 && V(s, d).ab[k] == 0 && FreeBlock(s, b)
    requires Storable(e)
    ensures s.ds <= b < s.ds + |s.bb| && b < |s.disk|
    ensures PutInNew(s, NewDirect(s, d, k, b, e), d, k, e)
  {
    hide V, Owned, Grows, PutInNew, PutEntry;
    NewDirectGrows(s, d, k, b, e);
    PartsOfView(s, d);
    DirGrew(s, NewDirect(s, d, k, b, e), d, k, b, map[b := (d, k)], V(s, d).tab, e);
  }

  /** Table sector t and data sector b rewritten, with the bitmap `bb` and the owners of `added`. */
  function NewIndirect(s: Fs, d: nat, t: nat, table: Sector, b: nat, e: DirEntry,
                       bb: seq<bool>, was: nat, added: map<nat, (nat, nat)>): Fs
    requires d in s.mem && b < |s.disk| && t < |s.disk| && Storable(e)
  {
    var n := s.mem[d].node;
    PutNode(s.(disk := s.disk[t := table][b := PutEntry(ZERO_SECTOR, 0, e)], bb := bb,
               own := (s.own - Replaced(was, t)) + added),
            d, n.(sec := n.sec[12 := t], size := n.size + 24))
  }

  lemma NewIndirectStore(s: Fs, d: nat, t: nat, table: Sector, b: nat, e: DirEntry,
                         bb: seq<bool>, was: nat, added: map<nat, (nat, nat)>)
    requires d in s.mem && b < |s.disk| && t < |s.disk| && t != b && Storable(e) && |bb| == |s.bb|
    requires b in added && forall x :: x in added ==> FreeBlock(s, x)
    requires forall x :: s.ds <= x < s.ds + |s.bb| ==> bb[x - s.ds] == (Bit(s, x) || x in added)
    ensures var s' := NewIndirect(s, d, t, table, b, e, bb, was, added);
            && SameRest(s, s') && OnlyNode(s.mem, s'.mem, d) && GrowsStore(s, s', added, was, t)
            && At(s'.disk, b) == PutEntry(ZERO_SECTOR, 0, e) && At(s'.disk, t) == table
  {
    hide PutEntry;
    var s' := NewIndirect(s, d, t, table, b, e, bb, was, added);
    forall x | s.ds <= x < s.ds + |s.bb|
      ensures Bit(s', x) == (Bit(s, x) || x in added)
    {}
  }

  /** The block list of inode d with block k added, spelled in a table sector. */
  function TableWith(s: Fs, d: nat, k: nat, b: nat): Sector
    requires 12 <= k < 140 && Words(V(s, d).ab[12..]) && b < WORD
  {
    EncTable(V(s, d).ab[12..][k - 12 := b])
  }

  /** Case k >= 12 of a missing block; for k == 12 the table t is new, otherwise it stays. */
  lemma NewIndirectGrows(s: Fs, d: nat, k: nat, t: nat, b: nat, e: DirEntry, bb: seq<bool>, added: map<nat, (nat, nat)>)
    requires Owned(s) && d in s.nodes && d in s.mem && 12 <= k < 140 && V(s, d).ab[k] == 0 && Storable(e)
    requires FreeBlock(s, b) && t != b && |bb| == |s.bb|
    requires added == if k == 12 then map[t := (d, 140), b := (d, 12)] else map[b := (d, k)]
    requires if k == 12 then FreeBlock(s, t) else t == V(s, d).tab != 0
    requires forall x :: s.ds <= x < s.ds + |s.bb| ==> bb[x - s.ds] == (Bit(s, x) || x in added)
    requires Words(V(s, d).ab[12..]) && b < WORD
    ensures t < |s.disk| && b < |s.disk| && b != 0 && t != 0 && (t == V(s, d).tab <==> k != 12)
    ensures var s' := NewIndirect(s, d, t, TableWith(s, d, k, b), b, e, bb, V(s, d).tab, added);
            && Grows(s, s', d, added, V(s, d).ab[k := b], t) && At(s'.disk, b) == PutEntry(ZERO_SECTOR, 0, e)
  {
    hide V, OwnedBy, PutEntry, AddsRefs, SectorsOf, Table, GrowsStore, EncTable, NewIndirect, Marked;
    var v := V(s, d);
    var ab := v.ab[k := b];
    PartsOfView(s, d);
    OwnerOf(s, d, 140);
    if k == 12 && v.tab != 0 {
      OwnedIsMarked(s, v.tab);
      assert Ref(v, 140) == v.tab;
    }
    var table := TableWith(s, d, k, b);
    NewIndirectStore(s, d, t, table, b, e, bb, v.tab, added);
    var s' := NewIndirect(s, d, t, table, b, e, bb, v.tab, added);
    assert ab[12..] == v.ab[12..][k - 12 := b];
    TableRoundTrip(ab[12..]);
    NewIndirectNode(s, d, t, table, b, e, bb, v.tab, added);
    assert ab[..12] == v.ab[..12];
    AddRefs(d, v, ViewRec(s'.mem[d].node.size, t, ab, SectorsOf(s'.disk, ab)), k, b, t, added);
  }

  lemma NewIndirectNode(s: Fs, d: nat, t: nat, table: Sector, b: nat, e: DirEntry,
                        bb: seq<bool>, was: nat, added: map<nat, (nat, nat)>)
    requires d in s.mem && b < |s.disk| && t < |s.disk| && Storable(e)
    ensures var n, n' := s.mem[d].node, NewIndirect(s, d, t, table, b, e, bb, was, added).mem[d].node;
            n'.sec[..12] == n.sec[..12] && n'.sec[12] == t && n'.size == n.size + 24
  {}

  lemma AddRefs(d: nat, v: View, v': View, k: nat, b: nat, t: nat, added: map<nat, (nat, nat)>)
    requires 12 <= k < 140 && b != 0 && t != 0 && t != b && v.ab[k] == 0 && v'.ab == v.ab[k := b] && v'.tab == t
    requires added == if k == 12 then map[t := (d, 140), b := (d, 12)] else map[b := (d, k)]
    requires k != 12 ==> t == v.tab
    ensures AddsRefs(d, v, v', added)
  {}

  lemma NewIndirectOk(s: Fs, d: nat, k: nat, t: nat, b: nat, e: DirEntry, bb: seq<bool>, added: map<nat, (nat, nat)>)
    requires Owned(s) && d in s.nodes && d in s.mem && 12 <= k < 140 && V(s, d).ab[k] == 0 && Storable(e)
    requires FreeBlock(s, b) && t != b && |bb| == |s.bb|
    requires added == if k == 12 then map[t := (d, 140), b := (d, 12)] else map[b := (d, k)]
    requires if k == 12 then FreeBlock(s, t) else t == V(s, d).tab != 0
    requires forall x :: s.ds <= x < s.ds + |s.bb| ==> bb[x - s.ds] == (Bit(s, x) || x in added)
    requires Words(V(s, d).ab[12..]) && b < WORD
    ensures t < |s.disk| && b < |s.disk|
    ensures PutInNew(s, NewIndirect(s, d, t, TableWith(s, d, k, b), b, e, bb, V(s, d).tab, added), d, k, e)
  {
    hide V, Owned, Grows, PutInNew, PutEntry, NewIndirect, EncTable;
    NewIndirectGrows(s, d, k, t, b, e, bb, added);
    PartsOfView(s, d);
    var table := TableWith(s, d, k, b);
    NewIndirectNode(s, d, t, table, b, e, bb, V(s, d).tab, added);
    NewIndirectStore(s, d, t, table, b, e, bb, V(s, d).tab, added);
    DirGrew(s, NewIndirect(s, d, t, table, b, e, bb, V(s, d).tab, added), d, k, b, added, t, e);
  }

  /** What a true sync_dir_entry did: one more entry, in the lowest dead slot of directory d. A
      block is lost exactly when it was a table whose block 12 had gone. */
  ghost predicate EntrySynced(s: Fs, s': Fs, d: nat, c: nat, e: DirEntry) {
    && SameRest(s, s') && LostKept(s, s') && OnlyNode(s.mem, s'.mem, d) && Owned(s') && OthersSame(s, s', d)
    && Added(V(s, d), V(s', d), c, e)
    && Leaked(s') == Leaked(s) + (if c / 21 == 12 && V(s, d).ab[12] == 0 && V(s, d).tab != 0 then {V(s, d).tab} else {})
  }

  lemma TableIsThere(v: View, k: nat)
    requires DirShape(v) && 12 <= k < 140 && v.ab[k] != 0
    ensures v.tab != 0
  {}

  /** All slots before entry j of block k are live. */
  lemma EarlierLive(v: View, k: nat, j: nat)
    requires k < 140 && j < 21
    requires forall l, i :: 0 <= l < k && 0 <= i < 21 ==> Live(Block(v, l)[i])
    requires forall i :: 0 <= i < j ==> Live(Block(v, k)[i])
    ensures 21 * k + j < 2940 && forall x :: 0 <= x < 21 * k + j ==> Live(Slots(v)[x])
  {
    forall x | 0 <= x < 21 * k + j
      ensures Live(Slots(v)[x])
    {
      BlockOfSlot(v, x);
    }
  }

  lemma InPlaceIsSynced(s: Fs, s': Fs, d: nat, k: nat, j: nat, e: DirEntry)
    requires k < 140 && j < 21 && PutInPlace(s, s', d, k, j, e, V(s, d).size + 24) && V(s, d).ab[k] != 0
    requires forall l, i :: 0 <= l < k && 0 <= i < 21 ==> Live(Block(V(s, d), l)[i])
    requires forall i :: 0 <= i < j ==> Live(Block(V(s, d), k)[i])
    requires !Live(Block(V(s, d), k)[j]) && (k >= 12 ==> V(s, d).tab != 0)
    ensures EntrySynced(s, s', d, 21 * k + j, e)
  {
    hide V, Slots, Owned;
    EarlierLive(V(s, d), k, j);
    SlotOfBlock(V(s, d), k, j);
    SlotIndex(k, j);
  }

  lemma NewIsSynced(s: Fs, s': Fs, d: nat, k: nat, e: DirEntry)
    requires k < 140 && PutInNew(s, s', d, k, e) && V(s, d).ab[k] == 0
    requires forall l, i :: 0 <= l < k && 0 <= i < 21 ==> Live(Block(V(s, d), l)[i])
    ensures EntrySynced(s, s', d, 21 * k, e)
  {
    hide V, Slots, Owned;
    EarlierLive(V(s, d), k, 0);
    SlotOfBlock(V(s, d), k, 0);
    SlotIndex(k, 0);
  }

  /** A new indirect block, with the new state given field by field. */
  lemma IndirectPut(s: Fs, s': Fs, d: nat, k: nat, t: nat, b: nat, e: DirEntry, added: map<nat, (nat, nat)>)
    requires Owned(s) && d in s.nodes && d in s.mem && 12 <= k < 140 && V(s, d).ab[k] == 0 && Storable(e)
    requires FreeBlock(s, b) && t != b && |s'.bb| == |s.bb| && t < |s.disk| && b < |s.disk|
    requires added == if k == 12 then map[t := (d, 140), b := (d, 12)] else map[b := (d, k)]
    requires if k == 12 then FreeBlock(s, t) else t == V(s, d).tab != 0
    requires forall x :: s.ds <= x < s.ds + |s.bb| ==> s'.bb[x - s.ds] == (Bit(s, x) || x in added)
    requires Words(V(s, d).ab[12..]) && b < WORD
    requires s' == s.(disk := s.disk[t := TableWith(s, d, k, b)][b := PutEntry(ZERO_SECTOR, 0, e)], bb := s'.bb,
                      mem := s'.mem, own := (s.own - Replaced(V(s, d).tab, t)) + added)
    requires s'.mem ==
             s.mem[d := s.mem[d].(node := s.mem[d].node.(sec := s.mem[d].node.sec[12 := t],
                                                         size := s.mem[d].node.size + 24))]
    ensures PutInNew(s, s', d, k, e)
  {
    hide V, Owned, PutInNew, PutEntry, TableWith, FreeBlock, Words, Bit, Replaced;
    NewIndirectOk(s, d, k, t, b, e, s'.bb, added);
    assert s' == NewIndirect(s, d, t, TableWith(s, d, k, b), b, e, s'.bb, V(s, d).tab, added);
  }

  /** An entry written into a present block, likewise. */
  lemma BlockPut(s: Fs, s': Fs, d: nat, k: nat, j: nat, lba: nat, e: DirEntry)
    requires Owned(s) && d in s.nodes && d in s.mem && k < 140 && j < 21 && Storable(e)
    requires lba == V(s, d).ab[k] != 0 && lba < |s.disk|
    requires s' == s.(disk := s.disk[lba := PutEntry(At(s.disk, lba), j, e)],
                      mem := s.mem[d := s.mem[d].(node := s.mem[d].node.(size := V(s, d).size + 24))])
    ensures PutInPlace(s, s', d, k, j, e, V(s, d).size + 24)
  {
    hide V, Owned, PutInPlace, PutEntry, At, Storable;
    RewriteEntry(s, d, k, j, e, V(s, d).size + 24);
    assert s' == EntryRewritten(s, d, k, j, e, V(s, d).size + 24);
  }

  // ---- delete_dir_entry ----

  /** What delete_dir_entry does to the store: one entry less in directory d. */
  ghost predicate EntryGone(s: Fs, s': Fs, d: nat, c: nat) {
    && SameRest(s, s') && OnlyNode(s.mem, s'.mem, d) && Owned(s') && OthersSame(s, s', d)
    && Leaked(s') == Leaked(s) && Removed(V(s, d), V(s', d), c)
  }

  /** Entry j is the only live one of its block. */
  ghost predicate OnlyLive(v: View, k: nat, j: nat)
    requires k < 140 && j < 21
  {
    Live(Block(v, k)[j]) && forall i :: 0 <= i < 21 && i != j ==> !Live(Block(v, k)[i])
  }

  lemma OnlyLiveSlots(v: View, k: nat, j: nat)
    requires k < 140 && j < 21 && DirShape(v) && OnlyLive(v, k, j)
    ensures forall i :: 0 <= i < 21 && i != j ==> Block(v, k)[i] == DEAD
    ensures 21 * k + j < 2940 && Live(Slots(v)[21 * k + j]) && !HasLive(Slots(v)[21 * k + j := DEAD], k)
  {
    forall i | 0 <= i < 21
      ensures 21 * k + i < 2940 && Slots(v)[21 * k + i] == Block(v, k)[i]
      ensures i != j ==> Block(v, k)[i] == DEAD
    {
      SlotOfBlock(v, k, i);
    }
    var t' := Slots(v)[21 * k + j := DEAD];
    forall c {:trigger t'[c]} | 21 * k <= c < 21 * k + 21
      ensures !Live(t'[c])
    {
      assert Slots(v)[21 * k + (c - 21 * k)] == Block(v, k)[c - 21 * k];
    }
  }

  lemma ShrinkKeepsSector(s: Fs, s': Fs, d: nat, gone: set<nat>, ab: seq<nat>, tab: nat, l: nat)
    requires Owned(s) && d in s.nodes && d in s.mem && Shrinks(s, s', d, gone, ab, tab)
    requires l < 140 && ab[l] != 0
    ensures ab[l] == V(s, d).ab[l] && SectorsOf(s'.disk, ab)[l] == V(s, d).body[l]
  {
    hide V, OwnedBy, Marked;
    PartsOfView(s, d);
    OwnerOf(s, d, l);
    OwnerOf(s, d, 140);
    var v' := ViewRec(s'.mem[d].node.size, tab, ab, SectorsOf(s'.disk, ab));
    assert Ref(v', l) == ab[l] && Ref(v', 140) == tab && Ref(V(s, d), l) == V(s, d).ab[l];
    assert At(s'.disk, ab[l]) == At(s.disk, ab[l]);
  }

  /** A directory whose block k went with its only live entry j. */
  lemma DirShrank(s: Fs, s': Fs, d: nat, k: nat, j: nat, gone: set<nat>, tab: nat)
    requires Owned(s) && d in s.nodes && d in s.mem && 0 < k < 140 && j < 21 && V(s, d).ab[k] != 0
    requires DirShape(V(s, d)) && OnlyLive(V(s, d), k, j)
    requires Shrinks(s, s', d, gone, V(s, d).ab[k := 0], tab)
    requires d in s'.mem && s'.mem[d].node.size + 24 == V(s, d).size
    requires tab == if NoIndirect(V(s, d).ab[k := 0]) then 0 else V(s, d).tab
    ensures EntryGone(s, s', d, 21 * k + j)
  {
    hide V, Slots, Owned, Shrinks, OthersSame, Leaked, SameRest, OnlyNode, SectorsOf, DirShape;
    var v, ab := V(s, d), V(s, d).ab[k := 0];
    Shrink(s, s', d, gone, ab, tab);
    OnlyLiveSlots(v, k, j);
    SlotIndex(k, j);
    forall l | 0 <= l < 140 && l != k && v.ab[l] != 0
      ensures V(s', d).body[l] == v.body[l]
    {
      ShrinkKeepsSector(s, s', d, gone, ab, tab, l);
    }
    SlotsAfterDrop(v, V(s', d), k, j);
  }

  /** An entry killed in place. */
  lemma KilledIsGone(s: Fs, s': Fs, d: nat, k: nat, j: nat, size: nat)
    requires k < 140 && j < 21 && DirShape(V(s, d)) && V(s, d).ab[k] != 0
    requires PutInPlace(s, s', d, k, j, DEAD, size) && size + 24 == V(s, d).size
    requires Live(Block(V(s, d), k)[j])
    requires k == 0 || exists i :: 0 <= i < 21 && i != j && Live(Block(V(s, d), k)[i])
    ensures EntryGone(s, s', d, 21 * k + j)
  {
    hide V, Slots, Owned, OthersSame, Leaked, SameRest, OnlyNode;
    var v := V(s, d);
    SlotIndex(k, j);
    SlotOfBlock(v, k, j);
    if k != 0 {
      var i :| 0 <= i < 21 && i != j && Live(Block(v, k)[i]);
      SlotOfBlock(v, k, i);
      assert Live(Slots(V(s', d))[21 * k + i]);
    }
  }

  /** What is left after the blocks in `gone` of inode d are given back. */
  function Dropped(s: Fs, d: nat, gone: set<nat>, bb: seq<bool>, disk: seq<Sector>, sec: seq<nat>): Fs
    requires d in s.mem && |sec| == 13 && s.mem[d].node.size >= 24
  {
    PutNode(s.(disk := disk, bb := bb, own := s.own - gone), d,
            s.mem[d].node.(sec := sec, size := s.mem[d].node.size - 24))
  }

  lemma DroppedStore(s: Fs, d: nat, gone: set<nat>, bb: seq<bool>, disk: seq<Sector>, sec: seq<nat>, tab: nat)
    requires d in s.mem && |sec| == 13 && s.mem[d].node.size >= 24
    requires |bb| == |s.bb| && |disk| == |s.disk|
    requires forall b :: b in gone ==> b in s.own && s.own[b].0 == d
    requires forall x :: s.ds <= x < s.ds + |s.bb| ==> bb[x - s.ds] == (Bit(s, x) && x !in gone)
    requires forall b :: 0 <= b < |s.disk| && b != tab ==> disk[b] == s.disk[b]
    ensures var s' := Dropped(s, d, gone, bb, disk, sec);
            SameRest(s, s') && OnlyNode(s.mem, s'.mem, d) && ShrinksStore(s, s', d, gone, tab)
  {
    var s' := Dropped(s, d, gone, bb, disk, sec);
    forall x | s.ds <= x < s.ds + |s.bb|
      ensures Bit(s', x) == (Bit(s, x) && x !in gone)
    {}
  }

  /** Block k of a directory dropped, in the three ways delete_dir_entry does it: a direct block;
      an indirect one of several, whose table is rewritten; the last indirect one, with its table. */
  lemma DroppedOk(s: Fs, d: nat, k: nat, j: nat, gone: set<nat>, bb: seq<bool>, disk: seq<Sector>, sec: seq<nat>)
    requires Owned(s) && d in s.nodes && d in s.mem && 0 < k < 140 && j < 21 && V(s, d).ab[k] != 0
    requires DirShape(V(s, d)) && OnlyLive(V(s, d), k, j) && s.mem[d].node.size >= 24
    requires |bb| == |s.bb| && |disk| == |s.disk| && |sec| == 13
    requires var ab := V(s, d).ab[k := 0];
             && sec[..12] == ab[..12] && sec[12] == (if NoIndirect(ab) then 0 else V(s, d).tab)
             && gone == (if k >= 12 && NoIndirect(ab) then {V(s, d).ab[k], V(s, d).tab} else {V(s, d).ab[k]})
             && Words(ab[12..]) && (forall b :: 0 <= b < |s.disk| && b != sec[12] ==> disk[b] == s.disk[b])
             && (sec[12] != 0 ==>
                 sec[12] < |disk| && disk[sec[12]] == if k < 12 then At(s.disk, sec[12]) else EncTable(ab[12..]))
    requires forall x :: s.ds <= x < s.ds + |s.bb| ==> bb[x - s.ds] == (Bit(s, x) && x !in gone)
    ensures EntryGone(s, Dropped(s, d, gone, bb, disk, sec), d, 21 * k + j)
  {
    hide V, Slots, Owned, Dropped, SectorsOf, Table, EncTable, ShrinksStore, EntryGone, OnlyLive, DropsRefs, SlotShape;
    var v := V(s, d);
    var ab := v.ab[k := 0];
    var s' := Dropped(s, d, gone, bb, disk, sec);
    PartsOfView(s, d);
    OwnerOf(s, d, k);
    OwnerOf(s, d, 140);
    assert Ref(v, k) == v.ab[k] && Ref(v, 140) == v.tab;
    if k >= 12 {
      TableIsThere(v, k);
    }
    DroppedStore(s, d, gone, bb, disk, sec, sec[12]);
    DroppedNode(s, d, gone, bb, disk, sec);
    TableRoundTrip(ab[12..]);
    if NoIndirect(ab) {
      assert ab[12..] == seq(128, _ => 0);
    } else if k < 12 {
      assert ab[12..] == v.ab[12..];
    }
    var v' := ViewRec(s'.mem[d].node.size, sec[12], ab, SectorsOf(s'.disk, ab));
    DroppedRefs(s, d, v, v', k, gone);
    DirShrank(s, s', d, k, j, gone, sec[12]);
  }

  lemma DroppedNode(s: Fs, d: nat, gone: set<nat>, bb: seq<bool>, disk: seq<Sector>, sec: seq<nat>)
    requires d in s.mem && |sec| == 13 && s.mem[d].node.size >= 24
    ensures var s' := Dropped(s, d, gone, bb, disk, sec);
            && s'.disk == disk && s'.bb == bb && s'.own == s.own - gone
            && s' == s.(disk := disk, bb := bb, mem := s'.mem, own := s'.own)
            && s'.mem == s.mem[d := s.mem[d].(node := s.mem[d].node.(sec := sec, size := s.mem[d].node.size - 24))]
  {}

  lemma DroppedRefs(s: Fs, d: nat, v: View, v': View, k: nat, gone: set<nat>)
    requires Owned(s) && d in s.nodes && v == V(s, d) && 0 < k < 140 && v.ab[k] != 0 && DirShape(v)
    requires v'.ab == v.ab[k := 0] && v'.tab == (if NoIndirect(v'.ab) then 0 else v.tab)
    requires gone == (if k >= 12 && NoIndirect(v'.ab) then {v.ab[k], v.tab} else {v.ab[k]})
    ensures DropsRefs(v, v', gone)
  {
    hide V, Slots, OwnedBy, Marked;
    OwnerOf(s, d, k);
    OwnerOf(s, d, 140);
    assert Ref(v, k) == v.ab[k] && Ref(v, 140) == v.tab;
    forall l | 0 <= l <= 140
      ensures Ref(v', l) == if Ref(v, l) in gone then 0 else Ref(v, l)
    {
      OwnerOf(s, d, l);
      if l == 140 && v.tab != 0 {
        var x :| 12 <= x < 140 && v.ab[x] != 0;
        assert x != k ==> v'.ab[x] != 0;
      }
    }
  }

  /** An entry delete_dir_entry counts: live, and neither "." nor "..". */
  predicate Counts(e: DirEntry) {
    Live(e) && e.name != DOT && e.name != DOTDOT
  }

  /** At most one counted entry has this inode number. */
  ghost predicate OneIno(t: seq<DirEntry>, ino: nat) {
    forall a, b :: 0 <= a < b < |t| && Counts(t[a]) && Counts(t[b]) && t[a].ino == ino ==> t[b].ino != ino
  }

  ghost function Counted(t: seq<DirEntry>, n: nat): set<int>
    requires n <= |t|
  {
    set i | 0 <= i < n && Counts(t[i])
  }

  lemma Single(s: set<int>, j: int)
    requires j in s
    ensures |s| == 1 <==> s == {j}
    ensures |s| != 1 ==> s - {j} != {}
  {
    assert |s - {j}| == |s| - 1;
    if |s| == 1 {
      assert s - {j} == {};
    }
  }

  /** A counted entry alone in a block without "." is the block's only live entry: the dot
      entries are in block 0. */
  lemma AloneIsOnlyLive(v: View, k: nat, j: nat)
    requires k < 140 && j < 21 && DirShape(v) && Counts(Block(v, k)[j]) && |Counted(Block(v, k), 21)| == 1
    requires forall i :: 0 <= i < 21 && Live(Block(v, k)[i]) ==> Block(v, k)[i].name != DOT
    ensures k != 0 && OnlyLive(v, k, j)
  {
    hide Slots, Block, HasLive, CountLive;
    var t := Block(v, k);
    SlotOfBlock(v, 0, 0);
    SlotOfBlock(v, 0, 1);
    Single(Counted(t, 21), j);
    forall i | 0 <= i < 21 && i != j
      ensures !Live(t[i])
    {
      SlotOfBlock(v, k, i);
      assert i !in Counted(t, 21);
    }
  }

  /** Otherwise the block keeps a live entry, or is the first. */
  lemma NotAloneKeepsOne(v: View, k: nat, j: nat)
    requires k < 140 && j < 21 && DirShape(v) && Counts(Block(v, k)[j])
    requires |Counted(Block(v, k), 21)| != 1 || exists i ::
               0 <= i < 21 && Live(Block(v, k)[i]) && Block(v, k)[i].name == DOT
    ensures Live(Block(v, k)[j])
    ensures k == 0 || exists i :: 0 <= i < 21 && i != j && Live(Block(v, k)[i])
  {
    var t := Block(v, k);
    Single(Counted(t, 21), j);
    if |Counted(t, 21)| != 1 {
      assert Counted(t, 21) - {j} != {};
      var i :| i in Counted(t, 21) - {j};
      assert Live(t[i]);
    } else {
      assert k == 0 by {
        var i :| 0 <= i < 21 && Live(t[i]) && t[i].name == DOT;
        SlotOfBlock(v, 0, 0);
        SlotOfBlock(v, k, i);
      }
    }
  }

  lemma CountedStep(t: seq<DirEntry>, n: nat)
    requires n < |t|
    ensures |Counted(t, n + 1)| == |Counted(t, n)| + if Counts(t[n]) then 1 else 0
  {
    assert Counted(t, n + 1) == if Counts(t[n]) then Counted(t, n) + {n} else Counted(t, n);
  }

  lemma TableStays(v: View, k: nat)
    requires DirShape(v) && k < 12
    ensures v.tab == if NoIndirect(v.ab[k := 0]) then 0 else v.tab
  {
    hide SlotShape, Slots, CountLive, HasLive;
    assert forall l :: 12 <= l < 140 ==> v.ab[k := 0][l] == v.ab[l];
  }

  lemma WordsKept(ab: seq<nat>, k: nat)
    requires |ab| == 140 && k < 140 && Words(ab[12..])
    ensures Words(ab[k := 0][12..])
  {
    var w, w' := ab[12..], ab[k := 0][12..];
    assert forall i :: 0 <= i < 128 ==> w'[i] == w[i] || w'[i] == 0;
  }

  /** A direct block of a directory is given back with its only entry. */
  lemma DirectDropped(s: Fs, s': Fs, d: nat, k: nat, j: nat)
    requires Owned(s) && d in s.nodes && d in s.mem && 0 < k < 12 && j < 21 && s.mem[d].node.size >= 24
    requires V(s, d).ab[k] != 0 && DirShape(V(s, d)) && OnlyLive(V(s, d), k, j)
    requires s.ds <= V(s, d).ab[k] < s.ds + |s.bb|
    requires s' == s.(bb := s.bb[V(s, d).ab[k] - s.ds := false], own := s.own - {V(s, d).ab[k]}, mem := s'.mem)
    requires s'.mem ==
             s.mem[d := s.mem[d].(node := s.mem[d].node.(sec := s.mem[d].node.sec[k := 0],
                                                         size := s.mem[d].node.size - 24))]
    ensures EntryGone(s, s', d, 21 * k + j)
  {
    hide V, Owned, DirShape, OnlyLive, EntryGone, EncTable, Dropped, Words, Bit, NoIndirect;
    var lba := V(s, d).ab[k];
    PartsOfView(s, d);
    OwnerOf(s, d, 140);
    BlocksAreWords(s, d);
    WordsKept(V(s, d).ab, k);
    TableStays(V(s, d), k);
    var sec := s.mem[d].node.sec[k := 0];
    DirectSec(s.mem[d].node.sec, V(s, d).ab, k);
    DirectBits(s, lba);
    DroppedOk(s, d, k, j, {lba}, s'.bb, s.disk, sec);
    DroppedNode(s, d, {lba}, s'.bb, s.disk, sec);
    assert s' == Dropped(s, d, {lba}, s'.bb, s.disk, sec);
  }

  lemma DirectSec(sec: seq<nat>, ab: seq<nat>, k: nat)
    requires |sec| == 13 && |ab| == 140 && k < 12 && sec[..12] == ab[..12]
    ensures sec[k := 0][..12] == ab[k := 0][..12] && sec[k := 0][12] == sec[12]
  {
    assert forall i :: 0 <= i < 12 ==> sec[..12][i] == ab[..12][i];
  }

  lemma DirectBits(s: Fs, lba: nat)
    requires s.ds <= lba < s.ds + |s.bb|
    ensures forall x :: s.ds <= x < s.ds + |s.bb| ==> s.bb[lba - s.ds := false][x - s.ds] == (Bit(s, x) && x !in {lba})
  {}

  lemma SizeOfDir(v: View)
    requires DirShape(v)
    ensures v.size >= 48
  {
    hide Slots, HasLive;
    CountPrefix(Slots(v), 2);
  }

  lemma GoneKeepsMem(s: Fs, s': Fs, d: nat, c: nat)
    requires EntryGone(s, s', d, c)
    ensures d in s'.mem && s'.itab == s.itab
  {}
}
