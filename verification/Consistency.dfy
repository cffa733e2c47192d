/** The invariant of a mounted file system, and how each kind of change keeps it. */
module Consistency {
  import opened Codec
  import opened Store
  import opened Moves
  import opened Directory
  import opened DirMoves
  import opened FileMoves
  import opened Bitmap
  import opened Tree

  ghost function Tables(s: Fs): map<nat, seq<DirEntry>> {
    map d | d in s.dirs :: Slots(V(s, d))
  }

  /** A directory below 256 inodes: its shape, and no block beyond 12. */
  ghost predicate DirOk(v: View) {
    DirShape(v) && forall k :: 12 < k < 140 ==> v.ab[k] == 0
  }

  /** The inode bitmap, and the numbers inode_sync can handle. */
  ghost predicate Numbered(s: Fs) {
    && |s.ib| == 4096 && |s.itab| == 4096
    && (forall i: nat :: i in s.nodes <==> i < 4096 && s.ib[i])
    && (forall i :: i in s.nodes ==> i < 256 && Node(s, i).no == i)
  }

  /** What the blocks, the directories and the files look like. */
  ghost predicate Core(s: Fs) {
    && Owned(s) && Numbered(s)
    && s.dirs <= s.nodes && s.ds in s.own && s.own[s.ds] == (0, 0)
    && TreeOk(Tables(s), s.nodes, s.par)
    && (forall d :: d in s.dirs ==> DirOk(V(s, d)))
    && (forall f :: f in s.nodes - s.dirs ==> FileShape(V(s, f)))
  }

  /** How many file_table slots hold inode i. */
  function Opens(files: seq<OpenFile>, i: nat): nat {
    if files == [] then 0
    else Opens(files[..|files| - 1], i) + (if files[|files| - 1].Open? && files[|files| - 1].ino == i then 1 else 0)
  }

  lemma {:induction false} OpensUpdate(files: seq<OpenFile>, k: nat, x: OpenFile, i: nat)
    requires k < |files|
    ensures Opens(files[k := x], i) + (if files[k].Open? && files[k].ino == i then 1 else 0)
         == Opens(files, i) + (if x.Open? && x.ino == i then 1 else 0)
  {
    var n := |files| - 1;
    if k == n {
      assert files[k := x][..n] == files[..n];
    } else {
      assert files[k := x][..n] == files[..n][k := x];
      OpensUpdate(files[..n], k, x, i);
    }
  }

  lemma {:induction false} OpensSome(files: seq<OpenFile>, k: nat)
    requires k < |files| && files[k].Open?
    ensures Opens(files, files[k].ino) > 0
  {
    if k < |files| - 1 {
      OpensSome(files[..|files| - 1], k);
    }
  }

  /** The open list: the root directory, directories that someone holds a handle of, and the regular
      files that file_table slots refer to, each counted once per slot; all in step with the disk. */
  ghost predicate OpenOk(s: Fs) {
    && s.mem.Keys <= s.nodes && 0 in s.mem && |s.files| == 32
    && (forall i :: i in s.mem ==> i < |s.itab| && s.itab[i] == s.mem[i].node && s.mem[i].cnt >= 1)
    && (forall i :: i in s.mem && i !in s.dirs ==> s.mem[i].cnt == Opens(s.files, i))
    && (forall k :: 0 <= k < 32 && s.files[k].Open? ==> s.files[k].ino in s.mem && s.files[k].ino !in s.dirs)
    && (forall k :: 0 <= k < 32 && s.files[k].Open? ==>
          s.files[k].pos <= s.mem[s.files[k].ino].node.size || s.files[k].pos == WORD - 1)
  }

  ghost predicate Inv(s: Fs) {
    Core(s) && OpenOk(s)
  }

  /** Same data blocks, same current inodes: the same core. */
  ghost predicate SameCore(s: Fs, s': Fs) {
    && s'.ds == s.ds && s'.disk == s.disk && s'.bb == s.bb && s'.ib == s.ib && |s'.itab| == |s.itab|
    && s'.nodes == s.nodes && s'.own == s.own && s'.dirs == s.dirs && s'.par == s.par
    && forall i :: i in s.nodes ==> Node(s', i) == Node(s, i)
  }

  lemma SameViews(s: Fs, s': Fs)
    requires SameCore(s, s')
    ensures forall i :: i in s.nodes ==> V(s', i) == V(s, i)
    ensures Views(s') == Views(s)
  {}

  lemma CoreSame(s: Fs, s': Fs)
    requires SameCore(s, s') && Core(s)
    ensures Core(s') && Tables(s') == Tables(s)
  {
    hide V, OwnedBy, DirOk, FileShape, TreeOk, Slots;
    SameViews(s, s');
    assert forall b :: Bit(s', b) == Bit(s, b);
    assert Tables(s') == Tables(s);
  }

  // ---- changes to one inode ----

  /** The bookkeeping that an operation on the blocks of one inode leaves alone. */
  ghost predicate SameBook(s: Fs, s': Fs) {
    && s'.ds == s.ds && s'.ib == s.ib && |s'.itab| == |s.itab|
    && s'.nodes == s.nodes && s'.dirs == s.dirs && s'.par == s.par
    && forall i :: i in s.nodes ==> Node(s', i).no == Node(s, i).no
  }

  lemma RootKeepsBlock(s: Fs, s': Fs)
    requires Owned(s) && s.ds in s.own && s.own[s.ds] == (0, 0)
    requires Owned(s') && 0 in s'.nodes && Ref(V(s', 0), 0) == Ref(V(s, 0), 0) && s'.ds == s.ds
    ensures s'.ds in s'.own && s'.own[s'.ds] == (0, 0)
  {
    hide V, Marked;
    assert Ref(Views(s)[s.own[s.ds].0], s.own[s.ds].1) == s.ds;
    OwnerOf(s', 0, 0);
  }

  /** A regular file that changed and kept its shape. */
  lemma CoreChangedFile(s: Fs, s': Fs, f: nat)
    requires Core(s) && f in s.nodes - s.dirs && SameBook(s, s') && Owned(s') && OthersSame(s, s', f)
    requires FileShape(V(s', f))
    ensures Core(s')
  {
    hide V, Owned, DirOk, FileShape, TreeOk, Slots;
    ZeroIsDir(s);
    RootKeepsBlock(s, s');
    assert Tables(s') == Tables(s);
  }

  lemma ZeroIsDir(s: Fs)
    requires TreeOk(Tables(s), s.nodes, s.par)
    ensures 0 in s.dirs && 0 in s.nodes
  {
    hide V, Slots;
    assert 0 in Tables(s);
  }

  /** file_write keeps the invariant. */
  lemma InvWrote(s: Fs, s': Fs, fd: nat, bytes: seq<byte>)
    requires Inv(s) && Wrote(s, s', fd, bytes)
    ensures Inv(s') && Leaked(s') == Leaked(s)
  {
    hide V, Owned, DirOk, TreeOk, Slots, FileShape, Content, Tables, Leaked;
    var f := s.files[fd].ino;
    var m := s'.(itab := s.itab, files := s.files);
    WroteNodes(s, s', fd, bytes);
    SameButTable(m, s', f);
    CoreChangedFile(s, s', f);
    WroteOpen(s, s', fd, bytes);
  }

  /** Writing one open inode back to the disk changes no view. */
  lemma SameButTable(m: Fs, s': Fs, f: nat)
    requires f in m.mem && f < |m.itab| && s' == m.(itab := m.itab[f := m.mem[f].node], files := s'.files)
    ensures (forall i :: Node(s', i) == Node(m, i)) && (forall i :: V(s', i) == V(m, i))
    ensures (Owned(m) ==> Owned(s')) && Leaked(s') == Leaked(m)
  {
    hide ViewOf, OwnedBy;
    assert forall b :: Bit(s', b) == Bit(m, b);
    assert Views(s') == Views(m);
  }

  lemma WroteNodes(s: Fs, s': Fs, fd: nat, bytes: seq<byte>)
    requires Inv(s) && Wrote(s, s', fd, bytes)
    ensures var f := s.files[fd].ino;
            var m := s'.(itab := s.itab, files := s.files);
            && f in s.nodes - s.dirs && f in m.mem && f < |m.itab|
            && s' == m.(itab := m.itab[f := m.mem[f].node], files := s'.files)
            && SameBook(s, s') && FileGrew(s, m, f, bytes)
  {
    hide V, Owned, DirOk, TreeOk, Slots, FileShape, Content, Leaked, OthersSame;
    var f := s.files[fd].ino;
    assert forall i :: i in s.nodes ==> Node(s', i).no == Node(s, i).no by {
      assert forall i :: i in s.mem ==> s'.mem[i].node.no == s.mem[i].node.no;
    }
  }

  lemma WroteOpen(s: Fs, s': Fs, fd: nat, bytes: seq<byte>)
    requires Inv(s) && Wrote(s, s', fd, bytes)
    ensures OpenOk(s')
  {
    hide V, Owned, DirOk, TreeOk, Slots, FileShape, Leaked, OthersSame;
    var f := s.files[fd].ino;
    forall i
      ensures Opens(s'.files, i) == Opens(s.files, i)
    {
      OpensUpdate(s.files, fd, s'.files[fd], i);
    }
    GrewSize(s, s'.(itab := s.itab, files := s.files), f, bytes);
  }

  lemma GrewSize(s: Fs, s': Fs, f: nat, bytes: seq<byte>)
    requires FileGrew(s, s', f, bytes)
    ensures s'.mem[f].node.size == s.mem[f].node.size + |bytes| && V(s, f).size == s.mem[f].node.size
  {
    assert |Content(V(s', f))| == |Content(V(s, f)) + bytes|;
    PartsOfView(s, f);
    PartsOfView(s', f);
    ShapeBlocks(V(s', f));
  }

  // ---- a new file ----

  /** The inode bitmap and file_table are not part of what an entry change reads or writes. */
  lemma StoreOnly(a: Fs, m: Fs)
    requires m == a.(ib := m.ib, files := m.files)
    ensures (forall i :: V(m, i) == V(a, i)) && (Owned(a) ==> Owned(m)) && Leaked(m) == Leaked(a)
    ensures forall x :: Bit(m, x) == Bit(a, x)
  {
    assert forall x :: Bit(m, x) == Bit(a, x);
    assert Views(m) == Views(a);
  }

  lemma SyncedElsewhere(s: Fs, a: Fs, b: Fs, d: nat, c: nat, e: DirEntry)
    requires a == s.(ib := a.ib, files := a.files) && EntrySynced(a, b, d, c, e)
    ensures EntrySynced(s, b.(ib := s.ib, files := s.files), d, c, e)
  {
    hide V, Owned, Added, Leaked;
    StoreOnly(s, a);
    StoreOnly(b, b.(ib := s.ib, files := s.files));
  }

  /** inode_init. */
  function EmptyInode(i: nat): Inode {
    InodeRec(i, 0, seq(13, _ => 0))
  }

  /** The state before the new inode's bookkeeping, after its entry was written. */
  ghost function Before(s: Fs, s': Fs, i: nat): Fs {
    s'.(ib := s.ib, files := s.files, itab := s.itab, mem := s'.mem - {i}, nodes := s.nodes, par := s.par)
  }

  /** file_create's success: entry e in slot c of directory p names inode i, which is empty, on
      disk, open once, and held by file_table slot fd. */
  ghost predicate FileCreated(s: Fs, s': Fs, p: nat, i: nat, c: nat, fd: nat, e: DirEntry, flag: nat) {
    var m := Before(s, s', i);
    && EntrySynced(s, m, p, c, e) && p in m.mem && p < |s.itab| && i < |s.itab| && i < |s.ib| && fd < |s.files|
    && e.ino == i && e.ftype == FT_REGULAR && !s.ib[i] && i < 256 && i !in s.mem
    && s'.ib == s.ib[i := true] && s'.files == s.files[fd := Open(i, 0, flag)] && s.files[fd].Closed?
    && s'.itab == s.itab[p := m.mem[p].node][i := EmptyInode(i)]
    && s'.mem == m.mem[i := MemInode(EmptyInode(i), 1, false)]
    && s'.nodes == s.nodes + {i} && s'.par == s.par[i := (p, c)]
  }

  /** An inode that owns nothing can be added. */
  lemma OwnAddEmpty(vs: map<nat, View>, own: map<nat, (nat, nat)>, i: nat, v: View)
    requires OwnedBy(vs, own) && i !in vs && forall k :: 0 <= k <= 140 ==> Ref(v, k) == 0
    ensures OwnedBy(vs[i := v], own)
  {
    var vs' := vs[i := v];
    forall j, k {:trigger Ref(vs'[j], k)} | j in vs' && 0 <= k <= 140 && Ref(vs'[j], k) != 0
      ensures Ref(vs'[j], k) in own && own[Ref(vs'[j], k)] == (j, k)
    {
      assert j != i;
      assert Ref(vs[j], k) in own;
    }
  }

  lemma EmptyView(disk: seq<Sector>, i: nat)
    ensures var v := ViewOf(disk, EmptyInode(i)); v.size == 0 && Blocks(v, 0) && forall k :: 0 <= k <= 140 ==>
              Ref(v, k) == 0
  {}

  /** Adding inode i, empty, to a state whose other inodes are those of m. */
  lemma OwnedWithEmpty(m: Fs, s': Fs, i: nat)
    requires Owned(m) && i !in m.nodes && s'.nodes == m.nodes + {i} && Node(s', i) == EmptyInode(i)
    requires s'.ds == m.ds && s'.disk == m.disk && s'.bb == m.bb && s'.own == m.own
    requires forall j :: j in m.nodes ==> Node(s', j) == Node(m, j)
    ensures Owned(s') && FileShape(V(s', i)) && Leaked(s') == Leaked(m) && V(s', i).size == 0 && Blocks(V(s', i), 0)
    ensures forall j :: j in m.nodes ==> V(s', j) == V(m, j)
  {
    hide ViewOf, OwnedBy;
    EmptyView(s'.disk, i);
    assert Views(s') == Views(m)[i := V(s', i)];
    OwnAddEmpty(Views(m), m.own, i, V(s', i));
    assert forall b :: Bit(s', b) == Bit(m, b);
  }

  lemma CreatedNodes(s: Fs, s': Fs, p: nat, i: nat, c: nat, fd: nat, e: DirEntry, flag: nat)
    requires Core(s) && FileCreated(s, s', p, i, c, fd, e, flag) && p in s.nodes && p in s.mem
    ensures var m := Before(s, s', i);
            && i !in s.nodes && m.nodes == s.nodes && s'.nodes == s.nodes + {i} && Owned(m) && m.ds == s.ds
            && m.disk == s'.disk && m.bb == s'.bb && m.own == s'.own
            && OthersSame(s, m, p)
            && Leaked(m) ==
                 Leaked(s) + (if c / 21 == 12 && V(s, p).ab[12] == 0 && V(s, p).tab != 0 then {V(s, p).tab} else {})
            && Added(V(s, p), V(m, p), c, e) && s'.ds == s.ds && s'.dirs == s.dirs
            && Node(s', i) == EmptyInode(i)
            && (forall j :: j in s.nodes ==> Node(s', j) == Node(m, j) && Node(m, j).no == Node(s, j).no)
  {
    hide V, Owned, DirOk, TreeOk, Slots, FileShape, Leaked, OthersSame, Added;
  }

  lemma NumberedCreated(s: Fs, s': Fs, p: nat, i: nat, c: nat, fd: nat, e: DirEntry, flag: nat)
    requires Core(s) && FileCreated(s, s', p, i, c, fd, e, flag) && p in s.nodes && p in s.mem
    ensures Numbered(s')
  {
    hide V, Owned, DirOk, TreeOk, Slots, FileShape, EntrySynced;
    CreatedNodes(s, s', p, i, c, fd, e, flag);
  }

  /** A directory of this file system that gained an entry keeps its shape. */
  lemma DirOkAfterAdd(s: Fs, v': View, d: nat, c: nat, e: DirEntry)
    requires Core(s) && d in s.dirs && Added(V(s, d), v', c, e) && Live(e) && e.name != []
    requires forall x :: 0 <= x < 2940 ==> Slots(V(s, d))[x].name != e.name
    ensures DirOk(v') && 2 <= c < 2940
  {
    hide V, Owned, FileShape, TreeOk, Slots;
    var v := V(s, d);
    AddKeepsShape(v, v', c, e);
    Few(s, d);
    FirstFitStaysLow(v, v', c, e);
  }

  lemma Few(s: Fs, d: nat)
    requires Core(s) && d in s.dirs
    ensures FewChildren(V(s, d))
  {
    hide V, Owned, FileShape, DirOk, Slots, HasDepth, ParentsLink, DotsLink;
    var t := Tables(s);
    assert t[d] == Slots(V(s, d));
    forall a, b | 2 <= a < b < 2940 && Live(t[d][a]) && Live(t[d][b])
      ensures t[d][a].ino != t[d][b].ino
    {
      ChildrenDistinct(t, s.nodes, s.par, d, a, b);
    }
    forall x | 2 <= x < 2940 && Live(t[d][x])
      ensures t[d][x].ino < 256
    {
      assert t[d][x].ino in s.par;
    }
  }

  lemma CoreCreated(s: Fs, s': Fs, p: nat, i: nat, c: nat, fd: nat, e: DirEntry, flag: nat)
    requires Core(s) && p in s.dirs && p in s.mem && FileCreated(s, s', p, i, c, fd, e, flag) && e.name != []
    requires forall x :: 0 <= x < 2940 ==> Slots(V(s, p))[x].name != e.name
    ensures Core(s') && Leaked(s') == Leaked(s) && V(s', i).size == 0 && Blocks(V(s', i), 0)
    ensures (forall j :: j in s.nodes && j != p ==> V(s', j) == V(s, j)) && Added(V(s, p), V(s', p), c, e)
  {
    hide V, Owned, DirOk, TreeOk, Slots, FileShape, Added, Leaked, Numbered, EntrySynced, Before;
    var m := Before(s, s', i);
    CreatedNodes(s, s', p, i, c, fd, e, flag);
    OwnedWithEmpty(m, s', i);
    NumberedCreated(s, s', p, i, c, fd, e, flag);
    DirOkAfterAdd(s, V(m, p), p, c, e);
    NotQuirk(V(s, p));
    AddedSlots(V(s, p), V(m, p), c, e);
    TreeAddFile(Tables(s), s.nodes, s.par, p, c, e);
    assert Tables(s') == Tables(s)[p := Tables(s)[p][c := e]];
    ZeroIsDir(s);
    RootAfterAdd(s, s', p, c, e);
  }

  lemma AddedSlots(v: View, v': View, c: nat, e: DirEntry)
    requires Added(v, v', c, e)
    ensures c < 2940 && !Live(Slots(v)[c]) && Slots(v') == Slots(v)[c := e]
  {}

  lemma NotQuirk(v: View)
    requires DirOk(v)
    ensures v.tab == 0 || v.ab[12] != 0
  {
    hide SlotShape, Slots, CountLive, HasLive;
  }

  lemma RootAfterAdd(s: Fs, s': Fs, p: nat, c: nat, e: DirEntry)
    requires Core(s) && Owned(s') && s'.ds == s.ds && 0 in s.dirs && 0 in s'.nodes
    requires if p == 0 then Added(V(s, 0), V(s', 0), c, e) else V(s', 0) == V(s, 0)
    ensures s'.ds in s'.own && s'.own[s'.ds] == (0, 0)
  {
    hide V, OwnedBy, Marked, TreeOk, Slots, FileShape;
    assert HasLive(Slots(V(s, 0)), 0) by {
      assert DirOk(V(s, 0));
      assert Live(Slots(V(s, 0))[0]);
    }
    assert V(s, 0).ab[0] != 0;
    RootKeepsBlock(s, s');
  }

  // ---- an inode given back ----

  /** The blocks of inode i that inode_release has given back after its table and blocks 0..k. */
  ghost function GivenBack(own: map<nat, (nat, nat)>, i: nat, k: nat): set<nat> {
    set b | b in own && own[b].0 == i && (own[b].1 < k || own[b].1 == 140)
  }

  ghost function Without(own: map<nat, (nat, nat)>, i: nat): map<nat, (nat, nat)> {
    map b | b in own && own[b].0 != i :: own[b]
  }

  /** What inode_release does to the store: inode i and its blocks are free again. */
  ghost predicate Released(m: Fs, s': Fs, i: nat) {
    && s'.ds == m.ds && s'.disk == m.disk && s'.files == m.files && |s'.bb| == |m.bb| && i < |m.ib| && i < |m.itab|
    && s'.nodes == m.nodes - {i} && s'.own == Without(m.own, i) && s'.dirs == m.dirs - {i} && s'.par == m.par - {i}
    && s'.ib == m.ib[i := false] && s'.itab == m.itab[i := EmptyInode(0)]
    && (forall b :: m.ds <= b < m.ds + |m.bb| ==> Bit(s', b) == (Bit(m, b) && b !in GivenBack(m.own, i, 140)))
    && (forall j :: j in m.nodes && j != i ==> (j in s'.mem <==> j in m.mem) && (j in m.mem ==> s'.mem[j] == m.mem[j]))
  }

  lemma OwnRemove(vs: map<nat, View>, own: map<nat, (nat, nat)>, i: nat)
    requires OwnedBy(vs, own)
    ensures OwnedBy(vs - {i}, Without(own, i))
  {
    var vs', own' := vs - {i}, Without(own, i);
    forall j, k {:trigger Ref(vs'[j], k)} | j in vs' && 0 <= k <= 140 && Ref(vs'[j], k) != 0
      ensures Ref(vs'[j], k) in own' && own'[Ref(vs'[j], k)] == (j, k)
    {
      assert Ref(vs[j], k) in own && own[Ref(vs[j], k)] == (j, k);
    }
  }

  lemma OwnedAfterRelease(m: Fs, s': Fs, i: nat)
    requires Owned(m) && Released(m, s', i)
    ensures Owned(s') && Leaked(s') == Leaked(m)
    ensures forall j :: j in m.nodes && j != i ==> Node(s', j) == Node(m, j) && V(s', j) == V(m, j)
  {
    hide ViewOf, OwnedBy;
    assert Views(s') == Views(m) - {i};
    OwnRemove(Views(m), m.own, i);
    OwnersInRange(m);
    assert forall b :: b in s'.own ==> b !in GivenBack(m.own, i, 140);
    assert forall b :: b in m.own && m.own[b].0 == i ==> b in GivenBack(m.own, i, 140);
  }

  lemma OwnersInRange(m: Fs)
    requires Owned(m)
    ensures forall b :: b in m.own ==> m.own[b].1 <= 140 && m.ds <= b < |m.disk| && Bit(m, b)
  {}

  /** The directory entry in slot c of p, and the inode it named, are gone. */
  ghost predicate NodeRemoved(s: Fs, m: Fs, s': Fs, p: nat, i: nat, c: nat) {
    && EntryGone(s, m.(itab := s.itab), p, c) && p in m.mem && p < |s.itab|
    && m.itab == s.itab[p := m.mem[p].node] && Released(m, s', i)
  }

  lemma RemovedViews(s: Fs, m: Fs, s': Fs, p: nat, i: nat, c: nat)
    requires Core(s) && NodeRemoved(s, m, s', p, i, c) && p in s.mem
    ensures Owned(m) && Owned(s') && Leaked(s') == Leaked(s) && Removed(V(s, p), V(m, p), c)
    ensures forall j :: j in s.nodes && j != i ==>
              V(s', j) == V(m, j) && Node(s', j) == Node(m, j) && Node(m, j).no == Node(s, j).no
    ensures forall j :: j in s.nodes && j != p ==> V(m, j) == V(s, j)
    ensures m.nodes == s.nodes && m.ds == s.ds && m.dirs == s.dirs && m.par == s.par && m.ib == s.ib
    ensures m.files == s.files
  {
    hide ViewOf, OwnedBy, DirOk, TreeOk, Slots, FileShape, Removed, Leaked, Released;
    var x := m.(itab := s.itab);
    SameTable(x, m, p);
    OwnedAfterRelease(m, s', i);
  }

  lemma SameTable(x: Fs, m: Fs, p: nat)
    requires p in x.mem && p < |x.itab| && m == x.(itab := x.itab[p := x.mem[p].node])
    ensures (forall i :: Node(m, i) == Node(x, i)) && (forall i :: V(m, i) == V(x, i))
    ensures (Owned(x) ==> Owned(m)) && Leaked(m) == Leaked(x)
  {
    hide ViewOf, OwnedBy;
    assert forall b :: Bit(m, b) == Bit(x, b);
    assert Views(m) == Views(x);
  }

  lemma NumberedRemoved(s: Fs, m: Fs, s': Fs, p: nat, i: nat, c: nat)
    requires Core(s) && NodeRemoved(s, m, s', p, i, c) && p in s.mem
    ensures Numbered(s')
  {
    hide ViewOf, Owned, DirOk, TreeOk, Slots, FileShape, Removed, Leaked;
    RemovedViews(s, m, s', p, i, c);
  }

  lemma DirOkAfterRemove(v: View, v': View, c: nat)
    requires DirOk(v) && Removed(v, v', c) && c >= 2
    ensures DirOk(v')
  {
    hide Slots, SlotShape, DirShape;
    RemoveKeepsShape(v, v', c);
    BlockOfLive(v, c);
  }

  lemma BlockOfLive(v: View, c: nat)
    requires DirOk(v) && c < 2940 && Live(Slots(v)[c])
    ensures c / 21 <= 12
  {
    hide Slots, SlotShape;
    assert 21 * (c / 21) <= c < 21 * (c / 21) + 21;
    assert HasLive(Slots(v), c / 21);
  }

  lemma RemovedSlots(v: View, v': View, c: nat)
    requires Removed(v, v', c)
    ensures c < 2940 && Live(Slots(v)[c]) && Slots(v') == Slots(v)[c := DEAD]
  {}

  lemma CoreRemoved(s: Fs, m: Fs, s': Fs, p: nat, i: nat, c: nat)
    requires Core(s) && p in s.dirs && p in s.mem && NodeRemoved(s, m, s', p, i, c)
    requires 2 <= c < 2940 && Slots(V(s, p))[c].ino == i
    requires i in s.dirs ==> forall x :: 2 <= x < 2940 ==> !Live(Slots(V(s, i))[x])
    ensures Core(s') && Leaked(s') == Leaked(s) && i != p && i != 0
    ensures Removed(V(s, p), V(s', p), c) && forall j :: j in s.nodes && j != i && j != p ==> V(s', j) == V(s, j)
  {
    hide V, Owned, DirOk, TreeOk, Slots, FileShape, Removed, Leaked, Numbered, EntryGone;
    RemovedViews(s, m, s', p, i, c);
    NumberedRemoved(s, m, s', p, i, c);
    RemovedSlots(V(s, p), V(m, p), c);
    DirOkAfterRemove(V(s, p), V(m, p), c);
    var t := Tables(s);
    assert t[p] == Slots(V(s, p));
    assert i in s.dirs ==> t[i] == Slots(V(s, i));
    TreeRemove(t, s.nodes, s.par, p, c);
    assert Tables(s') == t[p := t[p][c := DEAD]] - {i};
    ZeroIsDir(s);
    RootAfterRemove(s, s', p, c);
  }

  lemma RootAfterRemove(s: Fs, s': Fs, p: nat, c: nat)
    requires Core(s) && Owned(s') && s'.ds == s.ds && 0 in s.dirs && 0 in s'.nodes
    requires if p == 0 then Removed(V(s, 0), V(s', 0), c) else V(s', 0) == V(s, 0)
    ensures s'.ds in s'.own && s'.own[s'.ds] == (0, 0)
  {
    hide V, OwnedBy, Marked, TreeOk, Slots, FileShape;
    RootKeepsBlock(s, s');
  }

  // ---- a new directory ----

  /** The first sector of a directory just made. */
  function DotsSector(i: nat, up: nat): Sector
    requires i < WORD && up < WORD
  {
    PutEntry(PutEntry(ZERO_SECTOR, 0, DirEntry(DOT, i, FT_DIRECTORY)), 1, DirEntry(DOTDOT, up, FT_DIRECTORY))
  }

  function NewDirInode(i: nat, b: nat): Inode {
    InodeRec(i, 48, seq(13, _ => 0)[0 := b])
  }

  /** Block b, free before, is marked and written, and nothing refers to it yet. */
  ghost predicate BlockTaken(s: Fs, x: Fs, b: nat, sector: Sector) {
    && FreeBlock(s, b) && b - s.ds < |s.bb|
    && x == s.(ib := x.ib, bb := s.bb[b - s.ds := true], disk := s.disk[b := sector])
  }

  lemma OwnedTaken(s: Fs, x: Fs, b: nat, sector: Sector)
    requires Owned(s) && BlockTaken(s, x, b, sector)
    ensures Owned(x) && Leaked(x) == Leaked(s) + {b} && b !in s.own
    ensures forall i :: i in s.nodes ==> V(x, i) == V(s, i) && Node(x, i) == Node(s, i)
  {
    hide ViewOf, OwnedBy;
    assert forall y :: Bit(x, y) == (Bit(s, y) || y == b);
    assert b !in s.own;
    forall i | i in s.nodes
      ensures V(x, i) == V(s, i)
    {
      ViewFrame(s, x, i);
    }
    assert Views(x) == Views(s);
  }

  lemma NewDirView(disk: seq<Sector>, i: nat, b: nat, up: nat)
    requires 0 < b && i < WORD && up < WORD && At(disk, b) == DotsSector(i, up)
    ensures var v := ViewOf(disk, NewDirInode(i, b));
            && v.size == 48 && v.tab == 0 && v.ab == seq(140, _ => 0)[0 := b] && v.body[0] == DotsSector(i, up)
  {
    hide PutEntry;
    var v := ViewOf(disk, NewDirInode(i, b));
    assert v.ab == seq(140, _ => 0)[0 := b];
    SectorAt(disk, v.ab, 0);
  }

  lemma DotsEntries(i: nat, up: nat)
    requires i < WORD && up < WORD
    ensures Entries(DotsSector(i, up))
         == seq(21, _ => DEAD)[0 := DirEntry(DOT, i, FT_DIRECTORY)][1 := DirEntry(DOTDOT, up, FT_DIRECTORY)]
  {
    hide PutEntry;
    ZeroSectorIsDead();
    var e := DirEntry(DOT, i, FT_DIRECTORY);
    PutEntryUpdates(ZERO_SECTOR, 0, e);
    PutEntryUpdates(PutEntry(ZERO_SECTOR, 0, e), 1, DirEntry(DOTDOT, up, FT_DIRECTORY));
  }

  lemma NewDirSlots(v: View, i: nat, b: nat, up: nat)
    requires 0 < b && i < WORD && up < WORD && v.ab == seq(140, _ => 0)[0 := b] && v.body[0] == DotsSector(i, up)
    ensures Newborn(Slots(v), i, up)
  {
    hide DotsSector, Entries;
    DotsEntries(i, up);
    forall c | 0 <= c < 2940
      ensures Slots(v)[c] == if c == 0 then DirEntry(DOT, i, FT_DIRECTORY)
                             else if c == 1 then DirEntry(DOTDOT, up, FT_DIRECTORY) else DEAD
    {
      BlockOfSlot(v, c);
    }
  }

  lemma {:induction false} CountNewborn(u: seq<DirEntry>, n: nat)
    requires 2 <= n <= |u| && Live(u[0]) && Live(u[1]) && forall c :: 2 <= c < |u| ==> !Live(u[c])
    ensures CountLive(u[..n]) == 2
  {
    if n == 2 {
      assert u[..2][..1] == u[..1] && u[..1][..0] == [];
      assert CountLive(u[..1]) == 1;
    } else {
      assert u[..n][..n - 1] == u[..n - 1];
      CountNewborn(u, n - 1);
    }
  }

  lemma NewDirOk(v: View, i: nat, b: nat, up: nat)
    requires 0 < b && v.size == 48 && v.tab == 0 && v.ab == seq(140, _ => 0)[0 := b] && Newborn(Slots(v), i, up)
    ensures DirOk(v)
  {
    hide Slots, CountLive;
    var u := Slots(v);
    CountNewborn(u, 2940);
    assert u[..2940] == u;
    assert Live(u[0]);
    forall k | 0 <= k < 140
      ensures v.ab[k] != 0 <==> HasLive(u, k)
    {}
  }

  /** sys_mkdir's success: entry e in slot c of directory p names inode i, a directory with one
      block b that holds its dots. */
  ghost predicate DirCreated(s: Fs, x: Fs, y: Fs, s': Fs, p: nat, i: nat, b: nat, c: nat, e: DirEntry) {
    && p < WORD && i < 256 && BlockTaken(s, x, b, DotsSector(i, p)) && i < |s.ib| && !s.ib[i] && x.ib == s.ib[i := true]
    && EntrySynced(x, y, p, c, e) && e.ino == i && e.ftype == FT_DIRECTORY && i !in s.mem
    && p in y.mem && p < |s.itab| && i < |s.itab|
    && s' == y.(itab := s.itab[p := y.mem[p].node][i := NewDirInode(i, b)],
                nodes := s.nodes + {i}, dirs := s.dirs + {i}, par := s.par[i := (p, c)], own := y.own[b := (i, 0)])
  }

  /** An inode with one block of its own can be added. */
  lemma OwnAddOne(vs: map<nat, View>, own: map<nat, (nat, nat)>, i: nat, v: View, b: nat)
    requires OwnedBy(vs, own) && i !in vs && b !in own && b != 0
    requires v.tab == 0 && v.ab == seq(140, _ => 0)[0 := b]
    ensures OwnedBy(vs[i := v], own[b := (i, 0)])
  {
    var vs', own' := vs[i := v], own[b := (i, 0)];
    forall j, k {:trigger Ref(vs'[j], k)} | j in vs' && 0 <= k <= 140 && Ref(vs'[j], k) != 0
      ensures Ref(vs'[j], k) in own' && own'[Ref(vs'[j], k)] == (j, k)
    {
      if j != i {
        assert Ref(vs[j], k) in own;
      }
    }
  }

  lemma DirCreatedNodes(s: Fs, x: Fs, y: Fs, s': Fs, p: nat, i: nat, b: nat, c: nat, e: DirEntry)
    requires Core(s) && DirCreated(s, x, y, s', p, i, b, c, e) && p in s.mem && p in s.nodes
    ensures i !in s.nodes && y.nodes == s.nodes && Node(s', i) == NewDirInode(i, b)
    ensures s'.ib == s.ib[i := true] && |s'.itab| == |s.itab| && s'.ds == s.ds && y.ds == s.ds
    ensures forall j :: j in s.nodes ==> Node(s', j) == Node(y, j) && Node(y, j).no == Node(s, j).no
  {
    hide ViewOf, Owned, DirOk, TreeOk, Slots, FileShape, Added, Leaked, OthersSame, DotsSector;
  }

  /** The new block is still marked, unowned and as written after the entry was synced. */
  lemma TakenSurvives(s: Fs, x: Fs, y: Fs, p: nat, b: nat, c: nat, e: DirEntry, sector: Sector)
    requires Core(s) && p in s.dirs && BlockTaken(s, x, b, sector) && EntrySynced(x, y, p, c, e)
    ensures Owned(y) && 0 < b < |y.disk| && b !in y.own && Bit(y, b) && At(y.disk, b) == sector
    ensures Leaked(y) == Leaked(s) + {b}
    ensures y.ds == s.ds && b !in Leaked(s) && s.ds <= b
    ensures (forall j :: j in s.nodes && j != p ==> V(y, j) == V(s, j)) && Added(V(s, p), V(y, p), c, e)
  {
    hide ViewOf, OwnedBy, DirOk, TreeOk, Slots, FileShape, Added, Numbered;
    OwnedTaken(s, x, b, sector);
    NotQuirk(V(s, p));
    assert b in Leaked(x);
    assert b in Leaked(y);
  }

  lemma OwnedDirCreated(s: Fs, x: Fs, y: Fs, s': Fs, p: nat, i: nat, b: nat, c: nat, e: DirEntry)
    requires Core(s) && DirCreated(s, x, y, s', p, i, b, c, e) && p in s.mem && p in s.dirs
    ensures Owned(s') && Leaked(s') == Leaked(s) && DirOk(V(s', i)) && Newborn(Slots(V(s', i)), i, p)
    ensures forall j :: j in s.nodes ==> V(s', j) == V(y, j)
    ensures forall j :: j in s.nodes && j != p ==> V(y, j) == V(s, j)
    ensures Added(V(s, p), V(y, p), c, e)
  {
    hide ViewOf, OwnedBy, DirOk, TreeOk, Slots, FileShape, Added, DotsSector, BlockTaken, EntrySynced, Numbered;
    TakenSurvives(s, x, y, p, b, c, e, DotsSector(i, p));
    DirCreatedNodes(s, x, y, s', p, i, b, c, e);
    NewDirView(s'.disk, i, b, p);
    NewDirSlots(V(s', i), i, b, p);
    NewDirOk(V(s', i), i, b, p);
    assert Views(s') == Views(y)[i := V(s', i)];
    OwnAddOne(Views(y), y.own, i, V(s', i), b);
    assert forall z :: Bit(s', z) == Bit(y, z);
    assert Leaked(s') == Leaked(y) - {b};
  }

  lemma CoreDirCreated(s: Fs, x: Fs, y: Fs, s': Fs, p: nat, i: nat, b: nat, c: nat, e: DirEntry)
    requires Core(s) && DirCreated(s, x, y, s', p, i, b, c, e) && p in s.mem && p in s.dirs && e.name != []
    requires forall z :: 0 <= z < 2940 ==> Slots(V(s, p))[z].name != e.name
    ensures Core(s') && Leaked(s') == Leaked(s) && Newborn(Slots(V(s', i)), i, p)
    ensures (forall j :: j in s.nodes && j != p ==> V(s', j) == V(s, j)) && Added(V(s, p), V(s', p), c, e)
  {
    hide V, Owned, DirOk, TreeOk, Slots, FileShape, Added, Leaked, EntrySynced, BlockTaken;
    OwnedDirCreated(s, x, y, s', p, i, b, c, e);
    DirCreatedNodes(s, x, y, s', p, i, b, c, e);
    DirOkAfterAdd(s, V(y, p), p, c, e);
    AddedSlots(V(s, p), V(y, p), c, e);
    var t, u := Tables(s), Slots(V(s', i));
    TreeAddDir(t, s.nodes, s.par, p, c, e, u);
    var t1: map<nat, seq<DirEntry>> := t[p := t[p][c := e]];
    assert s'.dirs == s.dirs + {i};
    assert Tables(s') == t1[i := u];
    ZeroIsDir(s);
    RootAfterAdd(s, s', p, c, e);
  }

  // ---- directories opened for the length of an operation ----

  /** inode_open on the open list. */
  function OpenedMem(m: map<nat, MemInode>, itab: seq<Inode>, i: nat): map<nat, MemInode>
    requires i < |itab|
  {
    if i in m then m[i := m[i].(cnt := m[i].cnt + 1)] else m[i := MemInode(itab[i], 1, false)]
  }

  /** inode_close on the open list. */
  function ClosedMem(m: map<nat, MemInode>, i: nat): map<nat, MemInode>
    requires i in m && m[i].cnt >= 1
  {
    if m[i].cnt == 1 then m - {i} else m[i := m[i].(cnt := m[i].cnt - 1)]
  }

  lemma ClosedOpened(m: map<nat, MemInode>, itab: seq<Inode>, i: nat)
    requires i < |itab| && (i in m ==> m[i].cnt >= 1)
    ensures ClosedMem(OpenedMem(m, itab, i), i) == m
  {}

  /** dir_open: the root is always open, another directory is put on the open list or counted once more. */
  ghost predicate DirOpened(s: Fs, s1: Fs, p: nat) {
    && p < |s.itab|
    && s1 == if p == 0 then s else s.(mem := OpenedMem(s.mem, s.itab, p))
  }

  lemma OpenedKeeps(s: Fs, s1: Fs, p: nat)
    requires Inv(s) && p in s.dirs && DirOpened(s, s1, p)
    ensures Core(s1) && p in s1.mem && SameCore(s, s1) && Leaked(s1) == Leaked(s) && forall i :: i in s.nodes ==>
              V(s1, i) == V(s, i)
    ensures s1.mem[p].cnt >= 1 && FreeBlocks(s1) == FreeBlocks(s)
  {
    hide V, Owned, DirOk, TreeOk, Slots, FileShape, Tables;
    SameViews(s, s1);
    CoreSame(s, s1);
    assert forall b :: Bit(s1, b) == Bit(s, b);
  }

  /** dir_close undoes dir_open. */
  ghost predicate DirClosed(s: Fs, s1: Fs, p: nat) {
    if p == 0 then s1 == s else p in s.mem && s.mem[p].cnt >= 1 && s1 == s.(mem := ClosedMem(s.mem, p))
  }

  lemma ClosedKeeps(s: Fs, s1: Fs, p: nat)
    requires Core(s) && DirClosed(s, s1, p) && p in s.mem && p < |s.itab| && (p != 0 ==> s.itab[p] == s.mem[p].node)
    ensures Core(s1) && Leaked(s1) == Leaked(s) && forall i :: i in s.nodes ==> V(s1, i) == V(s, i)
    ensures FreeBlocks(s1) == FreeBlocks(s)
  {
    hide V, Owned, DirOk, TreeOk, Slots, FileShape, Tables;
    assert SameCore(s, s1);
    SameViews(s, s1);
    CoreSame(s, s1);
    assert forall b :: Bit(s1, b) == Bit(s, b);
  }

  lemma OpenedClosed(s: Fs, s1: Fs, s2: Fs, p: nat)
    requires Inv(s) && p in s.dirs && DirOpened(s, s1, p) && DirClosed(s1, s2, p)
    ensures s2 == s
  {
    hide Core, V;
    if p != 0 {
      ClosedOpened(s.mem, s.itab, p);
    }
  }

  lemma {:induction false} OpensNone(files: seq<OpenFile>, i: nat)
    requires forall k :: 0 <= k < |files| && files[k].Open? ==> files[k].ino != i
    ensures Opens(files, i) == 0
  {
    if files != [] {
      OpensNone(files[..|files| - 1], i);
    }
  }

  /** The partition's dimensions. */
  predicate SameSize(s: Fs, s': Fs) {
    s'.ds == s.ds && |s'.disk| == |s.disk| && |s'.bb| == |s.bb| && |s'.ib| == |s.ib|
  }

  /** What a caller of sys_open with O_CREAT sees: directory p has entry e for the empty file i. */
  ghost predicate FileMade(s: Fs, s': Fs, p: nat, i: nat, c: nat, fd: nat, e: DirEntry, flag: nat) {
    && i !in s.nodes && s'.nodes == s.nodes + {i} && s'.dirs == s.dirs && Leaked(s') == Leaked(s) && SameSize(s, s')
    && i < |s.ib| && s'.ib == s.ib[i := true] && !s.ib[i]
    && Added(V(s, p), V(s', p), c, e) && e.ino == i && e.ftype == FT_REGULAR
    && (forall j :: j in s.nodes && j != p ==> V(s', j) == V(s, j)) && V(s', i).size == 0 && Blocks(V(s', i), 0)
    && fd < |s.files| && s'.files == s.files[fd := Open(i, 0, flag)] && s.files[fd].Closed?
    && i in s'.mem && s'.mem[i] == MemInode(EmptyInode(i), 1, false)
  }

  lemma InvFileMade(s: Fs, s1: Fs, s2: Fs, s3: Fs, p: nat, i: nat, c: nat, fd: nat, e: DirEntry, flag: nat)
    requires Inv(s) && p in s.dirs && DirOpened(s, s1, p) && e.name != []
    requires FileCreated(s1, s2, p, i, c, fd, e, flag) && DirClosed(s2, s3, p)
    requires forall x :: 0 <= x < 2940 ==> Slots(V(s1, p))[x].name != e.name
    ensures Inv(s3) && FileMade(s, s3, p, i, c, fd, e, flag)
  {
    hide V, Owned, DirOk, TreeOk, Slots, FileShape, Leaked, Added, FileCreated, OpenOk, Numbered;
    OpenedKeeps(s, s1, p);
    CoreCreated(s1, s2, p, i, c, fd, e, flag);
    CreatedFields(s1, s2, p, i, c, fd, e, flag);
    ClosedKeeps(s2, s3, p);
    OpenAfterCreate(s, s1, s2, s3, p, i, c, fd, e, flag);
  }

  lemma CreatedFields(s: Fs, s': Fs, p: nat, i: nat, c: nat, fd: nat, e: DirEntry, flag: nat)
    requires Core(s) && p in s.mem && p in s.nodes && FileCreated(s, s', p, i, c, fd, e, flag)
    ensures i !in s.nodes && s'.nodes == s.nodes + {i} && s'.dirs == s.dirs && i < |s.ib| && s'.ib == s.ib[i := true]
    ensures !s.ib[i]
    ensures SameSize(s, s')
    ensures fd < |s.files| && s'.files == s.files[fd := Open(i, 0, flag)] && s.files[fd].Closed? && e.ino == i
    ensures e.ftype == FT_REGULAR
    ensures p in s'.mem && p < |s'.itab| && s'.itab[p] == s'.mem[p].node && s'.mem.Keys == s.mem.Keys + {i}
    ensures i !in s.mem
    ensures s'.mem[i] == MemInode(EmptyInode(i), 1, false) && i < |s'.itab| && s'.itab[i] == EmptyInode(i)
    ensures i !in s.dirs && p != i && s'.mem[p].cnt == s.mem[p].cnt
    ensures |s'.itab| == |s.itab| && forall j :: j in s.mem && j != p ==>
              s'.mem[j] == s.mem[j] && (j < |s.itab| ==> s'.itab[j] == s.itab[j])
  {
    hide V, Owned, DirOk, TreeOk, Slots, FileShape, Leaked, Added, OthersSame;
  }

  /** The open list after an operation in directory p: the same inodes with the same counts, in
      step with the disk; only directory inodes may have changed. */
  ghost predicate MemKept(s: Fs, s3: Fs) {
    forall j :: j in s.mem ==>
      && j in s3.mem && s3.mem[j].cnt == s.mem[j].cnt && j < |s3.itab| && s3.itab[j] == s3.mem[j].node
      && (j !in s.dirs ==> s3.mem[j].node == s.mem[j].node)
  }

  /** The open inodes other than p are untouched, p keeps its count, and p is in step. */
  ghost predicate MemEdited(s1: Fs, s2: Fs, p: nat) {
    && p in s1.mem && p in s2.mem && |s2.itab| == |s1.itab| && p < |s1.itab|
    && s2.itab[p] == s2.mem[p].node && s2.mem[p].cnt == s1.mem[p].cnt
    && forall j :: j in s1.mem && j != p ==>
         j in s2.mem && s2.mem[j] == s1.mem[j] && (j < |s1.itab| ==> s2.itab[j] == s1.itab[j])
  }

  /** The inodes on the open list are in step with their slots and counted. */
  ghost predicate InStep(s: Fs) {
    forall i :: i in s.mem ==> i < |s.itab| && s.itab[i] == s.mem[i].node && s.mem[i].cnt >= 1
  }

  lemma OpenedKeys(s: Fs, s1: Fs, p: nat)
    requires DirOpened(s, s1, p)
    ensures p == 0 ==> s1.mem == s.mem
    ensures p != 0 ==>
              p in s1.mem && s1.mem.Keys == s.mem.Keys + {p}
                  && s1.mem[p].cnt == (if p in s.mem then s.mem[p].cnt else 0) + 1
  {}

  lemma ClosedKeys(s2: Fs, s3: Fs, p: nat)
    requires DirClosed(s2, s3, p)
    ensures p == 0 ==> s3.mem == s2.mem
    ensures p != 0 ==> p in s2.mem && s3.mem.Keys == if s2.mem[p].cnt == 1 then s2.mem.Keys - {p} else s2.mem.Keys
    ensures forall i :: i in s3.mem && i != p ==> s3.mem[i] == s2.mem[i]
  {}

  /** One number put in and taken out again, unless it was there before. */
  lemma KeySets(a: set<nat>, b: set<nat>, c: set<nat>, d: set<nat>, p: nat)
    requires (b == a && d == c) || (b == a + {p} && d == if p in a then c else c - {p})
    ensures c == b ==> d == a
    ensures forall i :: c == b + {i} && i != p ==> d == a + {i}
  {}

  /** The keys of the open list after a directory was opened, others edited, and it was closed. */
  lemma KeysThrough(s: Fs, s1: Fs, s2: Fs, s3: Fs, p: nat)
    requires InStep(s) && DirOpened(s, s1, p) && MemEdited(s1, s2, p) && DirClosed(s2, s3, p)
    ensures s2.mem.Keys == s1.mem.Keys ==> s3.mem.Keys == s.mem.Keys
    ensures forall i :: s2.mem.Keys == s1.mem.Keys + {i} && i != p ==>
              s3.mem.Keys == s.mem.Keys + {i} && s3.mem[i] == s2.mem[i]
  {
    hide DirOpened, DirClosed;
    OpenedKeys(s, s1, p);
    ClosedKeys(s2, s3, p);
    assert s2.mem[p].cnt == s1.mem[p].cnt;
    hide MemEdited, InStep;
    KeySets(s.mem.Keys, s1.mem.Keys, s2.mem.Keys, s3.mem.Keys, p);
    forall i | s2.mem.Keys == s1.mem.Keys + {i} && i != p
      ensures s3.mem.Keys == s.mem.Keys + {i} && s3.mem[i] == s2.mem[i]
    {
      assert i in s3.mem.Keys;
    }
  }

  lemma MemThrough(s: Fs, s1: Fs, s2: Fs, s3: Fs, p: nat)
    requires OpenOk(s) && p in s.dirs && DirOpened(s, s1, p) && MemEdited(s1, s2, p) && DirClosed(s2, s3, p)
    ensures MemKept(s, s3) && (s2.mem.Keys == s1.mem.Keys ==> s3.mem.Keys == s.mem.Keys)
    ensures forall i :: s2.mem.Keys == s1.mem.Keys + {i} && i != p ==>
              s3.mem.Keys == s.mem.Keys + {i} && s3.mem[i] == s2.mem[i]
  {
    hide MemKept, InStep, MemEdited, DirOpened, DirClosed;
    OpenInStep(s);
    KeysThrough(s, s1, s2, s3, p);
    KeptThrough(s, s1, s2, s3, p);
  }

  lemma OpenInStep(s: Fs)
    requires OpenOk(s)
    ensures InStep(s)
  {}

  lemma KeptThrough(s: Fs, s1: Fs, s2: Fs, s3: Fs, p: nat)
    requires InStep(s) && p in s.dirs && DirOpened(s, s1, p) && MemEdited(s1, s2, p) && DirClosed(s2, s3, p)
    ensures MemKept(s, s3)
  {
    forall j | j in s.mem
      ensures j in s3.mem && s3.mem[j].cnt == s.mem[j].cnt && j < |s3.itab| && s3.itab[j] == s3.mem[j].node
      ensures j !in s.dirs ==> s3.mem[j].node == s.mem[j].node
    {
      assert j in s1.mem && j in s2.mem;
    }
  }

  lemma OpenAfterCreate(s: Fs, s1: Fs, s2: Fs, s3: Fs, p: nat, i: nat, c: nat, fd: nat, e: DirEntry, flag: nat)
    requires Inv(s) && p in s.dirs && DirOpened(s, s1, p) && Core(s1) && p in s1.mem && p in s1.nodes
    requires FileCreated(s1, s2, p, i, c, fd, e, flag) && DirClosed(s2, s3, p)
    ensures OpenOk(s3) && i in s3.mem && s3.mem[i] == MemInode(EmptyInode(i), 1, false)
  {
    hide V, Core, FileCreated, Opens, OpenOk;
    CreatedFields(s1, s2, p, i, c, fd, e, flag);
    MemThrough(s, s1, s2, s3, p);
    OpenWithFile(s, s3, i, fd, flag);
  }

  /** One more open inode, for a file just put in slot fd. */
  lemma OpenWithFile(s: Fs, s3: Fs, i: nat, fd: nat, flag: nat)
    requires OpenOk(s) && MemKept(s, s3) && s3.mem.Keys == s.mem.Keys + {i} && i !in s.mem && i !in s.dirs
    requires s3.nodes == s.nodes + {i} && s3.dirs == s.dirs && s3.mem[i] == MemInode(EmptyInode(i), 1, false)
    requires i < |s3.itab| && s3.itab[i] == EmptyInode(i)
    requires fd < |s.files| && s.files[fd].Closed? && s3.files == s.files[fd := Open(i, 0, flag)]
    ensures OpenOk(s3)
  {
    forall j
      ensures Opens(s3.files, j) == Opens(s.files, j) + if j == i then 1 else 0
    {
      OpensUpdate(s.files, fd, Open(i, 0, flag), j);
    }
    OpensNone(s.files, i);
  }

  /** A directory can be opened: it has a slot on disk, and the root is open already. */
  lemma CanOpen(s: Fs, p: nat)
    requires Inv(s) && p in s.dirs
    ensures p < |s.itab| && 0 in s.mem && (p in s.mem ==> s.mem[p].cnt >= 1 && s.itab[p] == s.mem[p].node)
  {
    hide V, Owned, DirOk, FileShape, TreeOk;
  }

  lemma CoreFacts(s: Fs, p: nat)
    requires Core(s) && p in s.dirs
    ensures Owned(s) && p in s.nodes && DirShape(V(s, p)) && (V(s, p).tab == 0 || V(s, p).ab[12] != 0)
    ensures |s.itab| == 4096 && |s.ib| == 4096 && p < 256 && Node(s, p).no == p
    ensures forall i: nat :: i < 4096 && !s.ib[i] ==> i !in s.nodes
  {
    hide V, Owned, DirShape, FileShape, TreeOk;
    assert DirOk(V(s, p));
    NotQuirk(V(s, p));
  }

  lemma BeforeSync(s: Fs, a: Fs, p: nat)
    requires Core(s) && p in s.dirs && a == s.(ib := a.ib, files := a.files)
    ensures Owned(a) && DirShape(V(a, p)) && V(a, p) == V(s, p)
  {
    hide V, Owned, DirShape, FileShape, TreeOk;
    StoreOnly(s, a);
    CoreFacts(s, p);
  }

  lemma SyncedMem(s: Fs, a: Fs, b: Fs, p: nat, c: nat, e: DirEntry)
    requires a == s.(ib := a.ib, files := a.files) && EntrySynced(a, b, p, c, e)
    ensures p in s.mem && p in b.mem && b.mem.Keys == s.mem.Keys && b.mem[p].node.no == s.mem[p].node.no
    ensures b.itab == s.itab && b.files == a.files && b.ib == a.ib && b.nodes == s.nodes && b.dirs == s.dirs
    ensures b.par == s.par
  {
    hide V, Owned, Added, Leaked, OthersSame;
  }

  lemma CreatedFromParts(s: Fs, a: Fs, b: Fs, s': Fs, p: nat, i: nat, c: nat, fd: nat, e: DirEntry, flag: nat)
    requires i < |s.ib| && fd < |s.files|
    requires a == s.(ib := s.ib[i := true], files := s.files[fd := Open(i, 0, flag)])
    requires EntrySynced(a, b, p, c, e) && p in b.mem && p < |s.itab| && i < |s.itab|
    requires s' == b.(itab := s.itab[p := b.mem[p].node][i := EmptyInode(i)],
                      mem := b.mem[i := MemInode(EmptyInode(i), 1, false)],
                      nodes := s.nodes + {i}, par := s.par[i := (p, c)])
    requires e.ino == i && e.ftype == FT_REGULAR && !s.ib[i] && i < 256 && i !in s.mem && s.files[fd].Closed?
    ensures FileCreated(s, s', p, i, c, fd, e, flag)
  {
    hide V, EntrySynced;
    SyncedMem(s, a, b, p, c, e);
    SyncedElsewhere(s, a, b, p, c, e);
    var m := Before(s, s', i);
    assert b.mem[i := MemInode(EmptyInode(i), 1, false)] - {i} == b.mem;
    assert m == b.(ib := s.ib, files := s.files);
  }

  lemma InvFacts(s: Fs)
    requires Inv(s)
    ensures Core(s) && |s.files| == 32 && s.mem.Keys <= s.nodes
  {
    hide Core;
  }

  lemma OpenedFields(s: Fs, s1: Fs, p: nat)
    requires Inv(s) && p in s.dirs && DirOpened(s, s1, p)
    ensures s1 == s.(mem := s1.mem) && s1.mem.Keys == s.mem.Keys + {p} && s1.mem.Keys <= s1.nodes
    ensures forall i :: i in s1.mem ==> i < |s1.itab| && s1.mem[i].cnt >= 1 && s1.itab[i] == s1.mem[i].node
  {
    hide V, Owned, DirOk, FileShape, TreeOk, Numbered;
    CanOpen(s, p);
  }

  // ---- inode_release ----

  /** inode_release before the inode itself goes: its table and first k blocks are unmarked. */
  ghost predicate Releasing(m: Fs, s': Fs, i: nat, k: nat) {
    && s' == m.(bb := s'.bb) && |s'.bb| == |m.bb|
    && forall b :: m.ds <= b < m.ds + |m.bb| ==> Bit(s', b) == (Bit(m, b) && b !in GivenBack(m.own, i, k))
  }

  /** Block k of inode i, when there is one, is a data block after the root's. */
  lemma ReleaseBlock(m: Fs, i: nat, k: nat)
    requires Owned(m) && i in m.nodes && i != 0 && k <= 140 && m.ds in m.own && m.own[m.ds] == (0, 0)
    ensures Ref(V(m, i), k) != 0 ==> m.ds < Ref(V(m, i), k) < |m.disk| <= m.ds + |m.bb|
    ensures k < 140 ==>
              GivenBack(m.own, i, k + 1)
              == GivenBack(m.own, i, k) + if Ref(V(m, i), k) == 0 then {} else {Ref(V(m, i), k)}
    ensures GivenBack(m.own, i, 0) == if V(m, i).tab == 0 then {} else {V(m, i).tab}
  {
    hide ViewOf, Marked;
    OwnerOf(m, i, k);
    OwnerOf(m, i, 140);
    var vs := Views(m);
    assert forall b :: b in m.own && m.own[b].0 == i ==> Ref(vs[i], m.own[b].1) == b;
  }

  lemma ReleaseStep(m: Fs, s1: Fs, s2: Fs, i: nat, k: nat, b: nat)
    requires Owned(m) && i in m.nodes && i != 0 && k < 140 && m.ds in m.own && m.own[m.ds] == (0, 0)
    requires Releasing(m, s1, i, k) && b == Ref(V(m, i), k)
    requires b != 0 ==> m.ds <= b < m.ds + |s1.bb|
    requires s2 == if b == 0 then s1 else s1.(bb := s1.bb[b - m.ds := false])
    ensures Releasing(m, s2, i, k + 1)
  {
    hide V, Owned;
    ReleaseBlock(m, i, k);
    assert forall x :: Bit(s2, x) == (Bit(s1, x) && (b == 0 || x != b));
  }

  lemma ReleaseStart(m: Fs, s1: Fs, i: nat)
    requires Owned(m) && i in m.nodes && i != 0 && m.ds in m.own && m.own[m.ds] == (0, 0)
    requires V(m, i).tab != 0 ==> m.ds <= V(m, i).tab < m.ds + |m.bb|
    requires s1 == if V(m, i).tab == 0 then m else m.(bb := m.bb[V(m, i).tab - m.ds := false])
    ensures Releasing(m, s1, i, 0)
  {
    hide V, Owned;
    ReleaseBlock(m, i, 0);
    assert forall x :: Bit(s1, x) == (Bit(m, x) && (V(m, i).tab == 0 || x != V(m, i).tab));
  }

  /** Without a table the loop may stop at block 12. */
  lemma ReleaseShort(m: Fs, s1: Fs, i: nat)
    requires Owned(m) && i in m.nodes && V(m, i).tab == 0 && Releasing(m, s1, i, 12)
    ensures Releasing(m, s1, i, 140)
  {
    hide Marked;
    var vs := Views(m);
    assert forall k :: 12 <= k < 140 ==> vs[i].ab[k] == 0;
    assert forall b :: b in m.own && m.own[b].0 == i ==> Ref(vs[i], m.own[b].1) == b;
    assert GivenBack(m.own, i, 140) == GivenBack(m.own, i, 12);
  }

  lemma OpenSame(m: Fs, m1: Fs, i: nat)
    requires i < |m.itab| && m1 == m.(mem := m1.mem)
    requires m1.mem == OpenedMem(m.mem, m.itab, i)
    ensures (Owned(m) ==> Owned(m1)) && forall j :: V(m1, j) == V(m, j)
  {
    hide ViewOf, OwnedBy;
    assert forall x :: Bit(m1, x) == Bit(m, x);
    assert Views(m1) == Views(m);
  }

  lemma ReleasedFromParts(m: Fs, m1: Fs, m2: Fs, s': Fs, i: nat)
    requires i < |m.ib| && i < |m.itab| && (i in m.mem ==> m.mem[i].cnt >= 1) && m1 == m.(mem := m1.mem)
    requires m1.mem == OpenedMem(m.mem, m.itab, i)
    requires Releasing(m1, m2, i, 140)
    requires s' == m2.(ib := m.ib[i := false], itab := m.itab[i := EmptyInode(0)], mem := s'.mem,
                       own := Without(m.own, i),
                       nodes := m.nodes - {i}, dirs := m.dirs - {i}, par := m.par - {i})
    requires s'.mem == if m1.mem[i].cnt == 1 then m1.mem - {i} else m1.mem[i := m1.mem[i].(cnt := m1.mem[i].cnt - 1)]
    ensures Released(m, s', i) && s'.mem == m.mem
  {
    hide GivenBack;
    assert forall x :: Bit(m1, x) == Bit(m, x) && Bit(s', x) == Bit(m2, x);
    if i in m.mem {
      assert m1.mem[i := m1.mem[i].(cnt := m1.mem[i].cnt - 1)] == m.mem;
    } else {
      assert m1.mem - {i} == m.mem;
    }
  }

  // ---- removing an entry with its inode ----

  lemma OneInoBlocks(s: Fs, p: nat, i: nat)
    requires Core(s) && p in s.dirs
    ensures forall k :: 0 <= k < 140 ==> OneIno(Block(V(s, p), k), i)
  {
    hide V, Owned, FileShape, TreeOk, Slots, Block;
    var v := V(s, p);
    Few(s, p);
    forall k, a, b | 0 <= k < 140 && 0 <= a < b < 21 && Counts(Block(v, k)[a]) && Counts(Block(v, k)[b])
      ensures Block(v, k)[a].ino != Block(v, k)[b].ino
    {
      SlotOfBlock(v, k, a);
      SlotOfBlock(v, k, b);
      CountedSlot(v, 21 * k + a);
      CountedSlot(v, 21 * k + b);
    }
  }

  lemma CountedSlot(v: View, c: nat)
    requires DirOk(v) && c < 2940
    ensures Counts(Slots(v)[c]) <==> Live(Slots(v)[c]) && c >= 2
  {
    hide Slots, HasLive, CountLive;
  }

  /** A name that is found names a live slot; beyond the dots, a slot that no other shares its inode with. */
  lemma FoundSlot(s: Fs, p: nat, c: nat)
    requires Core(s) && p in s.dirs && c < 2940 && Slots(V(s, p))[c].name != []
    ensures var t := Slots(V(s, p));
            && Live(t[c]) && (c < 2 ==> t[c].ftype == FT_DIRECTORY)
            && (c < 2 <==> t[c].name == DOT || t[c].name == DOTDOT)
            && (c >= 2 ==>
                Counts(t[c]) && t[c].ino in s.nodes && t[c].ino != 0 && t[c].ino in s.par && s.par[t[c].ino] == (p, c))
            && (c >= 2 ==> (t[c].ftype == FT_DIRECTORY <==> t[c].ino in s.dirs))
            && (forall x :: 2 <= x < 2940 && Counts(t[x]) && t[x].ino == t[c].ino && c >= 2 ==> x == c)
  {
    hide V, Owned, FileShape, Slots;
    var t := Tables(s);
    assert t[p] == Slots(V(s, p));
    assert DirOk(V(s, p));
    if c >= 2 {
      CountedSlot(V(s, p), c);
    }
    forall x | 2 <= x < 2940 && Counts(t[p][x]) && t[p][x].ino == t[p][c].ino && c >= 2
      ensures x == c
    {
      CountedSlot(V(s, p), x);
      assert s.par[t[p][x].ino] == (p, x);
    }
  }

  /** What a caller of sys_unlink or sys_rmdir sees: inode i and its entry are gone. */
  ghost predicate NodeGone(s: Fs, s': Fs, p: nat, i: nat, c: nat) {
    && i in s.nodes && i != 0 && i != p && s'.nodes == s.nodes - {i} && s'.dirs == s.dirs - {i}
    && Leaked(s') == Leaked(s) && SameSize(s, s')
    && i < |s.ib| && s'.ib == s.ib[i := false] && s'.files == s.files
    && Removed(V(s, p), V(s', p), c) && Slots(V(s, p))[c].ino == i && c >= 2
    && (forall j :: j in s.nodes && j != i && j != p ==> V(s', j) == V(s, j))
  }

  lemma RemovedFields(s: Fs, m: Fs, s': Fs, p: nat, i: nat, c: nat)
    requires Core(s) && p in s.dirs && p in s.mem && NodeRemoved(s, m, s', p, i, c) && s'.mem == m.mem && i != p
    requires i in s.nodes
    ensures s'.nodes == s.nodes - {i} && s'.dirs == s.dirs - {i} && i < |s.ib| && s'.ib == s.ib[i := false]
    ensures s'.files == s.files
    ensures SameSize(s, s')
    ensures s'.mem.Keys == s.mem.Keys && (i !in s.mem ==> MemEdited(s, s', p))
    ensures p in s'.mem && s'.mem[p].cnt == s.mem[p].cnt && p < |s'.itab| && s'.itab[p] == s'.mem[p].node
  {
    hide V, Owned, DirOk, TreeOk, Slots, FileShape, Leaked, Removed, OthersSame, Node;
  }

  lemma CoreNodeGone(s: Fs, s1: Fs, m: Fs, s2: Fs, s3: Fs, p: nat, i: nat, c: nat)
    requires Inv(s) && p in s.dirs && DirOpened(s, s1, p) && NodeRemoved(s1, m, s2, p, i, c) && DirClosed(s2, s3, p)
    requires s2.mem == m.mem && 2 <= c < 2940 && Slots(V(s1, p))[c].ino == i && i in s.nodes
    requires i in s.dirs ==> forall x :: 2 <= x < 2940 ==> !Live(Slots(V(s1, i))[x])
    ensures Core(s3) && NodeGone(s, s3, p, i, c)
  {
    hide V, OwnedBy, Geometry, Marked, DirOk, TreeOk, Slots, FileShape, Leaked, Removed, NodeRemoved, OpenOk,
         Numbered, FreeBlocks;
    OpenedKeeps(s, s1, p);
    CoreRemoved(s1, m, s2, p, i, c);
    RemovedFields(s1, m, s2, p, i, c);
    ClosedKeeps(s2, s3, p);
  }

  /** The inode and its entry are gone. If the inode was on the open list it still is, and the invariant
      does not hold any more; otherwise it does. */
  lemma InvNodeGone(s: Fs, s1: Fs, m: Fs, s2: Fs, s3: Fs, p: nat, i: nat, c: nat)
    requires Inv(s) && p in s.dirs && DirOpened(s, s1, p) && NodeRemoved(s1, m, s2, p, i, c) && DirClosed(s2, s3, p)
    requires s2.mem == m.mem && 2 <= c < 2940 && Slots(V(s1, p))[c].ino == i && i in s.nodes
    requires i in s.dirs ==> forall x :: 2 <= x < 2940 ==> !Live(Slots(V(s1, i))[x])
    ensures Core(s3) && NodeGone(s, s3, p, i, c) && (Inv(s3) <==> i !in s.mem) && (i in s.mem ==> i in s3.mem)
  {
    hide V, Core, Slots, Leaked, Removed, NodeRemoved, OpenOk, FreeBlocks, Live;
    CoreNodeGone(s, s1, m, s2, s3, p, i, c);
    OpenedKeeps(s, s1, p);
    OpenedFields(s, s1, p);
    RemovedFields(s1, m, s2, p, i, c);
    if i in s.mem {
      StillOpen(s1, s2, s3, p, i);
    } else {
      MemThrough(s, s1, s2, s3, p);
      OpenSameKeys(s, s3, i);
    }
  }

  lemma StillOpen(s1: Fs, s2: Fs, s3: Fs, p: nat, i: nat)
    requires i in s1.mem && s2.mem.Keys == s1.mem.Keys && DirClosed(s2, s3, p) && i != p && i !in s2.nodes
    ensures i in s3.mem && !OpenOk(s3)
  {
    assert i in s3.mem && i !in s3.nodes;
  }

  lemma OpenSameKeys(s: Fs, s3: Fs, i: nat)
    requires OpenOk(s) && MemKept(s, s3) && s3.mem.Keys == s.mem.Keys && i !in s.mem
    requires s3.nodes == s.nodes - {i} && s3.dirs == s.dirs - {i} && s3.files == s.files
    ensures OpenOk(s3)
  {}

  /** A regular file that no file_table slot refers to is not open. */
  lemma NotHeld(s: Fs, i: nat)
    requires Inv(s) && i !in s.dirs && forall k :: 0 <= k < 32 && s.files[k].Open? ==> s.files[k].ino != i
    ensures i !in s.mem
  {
    hide Core;
    OpensNone(s.files, i);
  }

  /** Slot x of directory p names a regular file that no one has open. */
  ghost predicate Removable(s: Fs, p: nat, x: nat, name: seq<byte>)
    requires x < 2940
  {
    && NamesFile(s, p, x, name)
    && forall k :: 0 <= k < |s.files| && s.files[k].Open? ==> s.files[k].ino != Slots(V(s, p))[x].ino
  }

  /** The name is that of a regular file that no one has open. */
  ghost predicate CanUnlink(s: Fs, p: nat, name: seq<byte>) {
    exists x :: 0 <= x < 2940 && Removable(s, p, x, name)
  }

  lemma SameUnlink(s: Fs, s1: Fs, p: nat, name: seq<byte>)
    requires s1.dirs == s.dirs && s1.files == s.files && V(s1, p) == V(s, p)
    ensures CanUnlink(s1, p, name) == CanUnlink(s, p, name)
  {
    hide V, Slots;
    assert forall x :: 0 <= x < 2940 ==> Removable(s1, p, x, name) == Removable(s, p, x, name);
  }

  lemma NameNotIn(s: Fs, p: nat, name: seq<byte>)
    requires !NameIn(s, p, name)
    ensures !CanUnlink(s, p, name)
  {
    hide V, Slots;
    forall x | 0 <= x < 2940
      ensures !Removable(s, p, x, name)
    {
      assert Slots(V(s, p))[x].name != name;
    }
  }

  lemma OnlyOneInCore(s: Fs, p: nat, c: nat, name: seq<byte>)
    requires Core(s) && p in s.dirs && c < 2940 && Slots(V(s, p))[c].name == name && name != []
    ensures forall x :: 0 <= x < 2940 && Slots(V(s, p))[x].name == name ==> x == c
  {
    hide V, Owned, FileShape, TreeOk, Slots;
    assert DirOk(V(s, p));
    var t := Slots(V(s, p));
    forall x | 0 <= x < 2940 && t[x].name == name
      ensures x == c
    {
      assert Live(t[x]) && Live(t[c]);
    }
  }

  lemma OnlyOneNamed(s: Fs, p: nat, c: nat, name: seq<byte>)
    requires Inv(s) && p in s.dirs && c < 2940 && Slots(V(s, p))[c].name == name && name != []
    ensures forall x :: 0 <= x < 2940 && Slots(V(s, p))[x].name == name ==> x == c
  {
    hide V, Core, OpenOk, Slots;
    OnlyOneInCore(s, p, c, name);
  }

  lemma CoreRoot(s: Fs)
    requires Core(s)
    ensures s.ds in s.own && s.own[s.ds] == (0, 0)
  {}

  lemma CountsNamed(s: Fs, p: nat, c: nat)
    requires Core(s) && p in s.dirs && c < 2940 && Counts(Slots(V(s, p))[c])
    ensures Slots(V(s, p))[c].name != []
  {
    hide V, Owned, FileShape, TreeOk, Slots;
    assert DirOk(V(s, p));
  }

  lemma CountedHigh(s: Fs, p: nat, c: nat)
    requires Core(s) && p in s.dirs && c < 2940
    ensures Counts(Slots(V(s, p))[c]) ==> c >= 2
  {
    hide V, Owned, FileShape, TreeOk, Slots;
    CountedSlot(V(s, p), c);
  }

  lemma GoneOwned(s: Fs, m: Fs, p: nat, i: nat, c: nat)
    requires Core(s) && p in s.dirs && EntryGone(s, m.(itab := s.itab), p, c) && p in m.mem && p < |s.itab|
    requires m.itab == s.itab[p := m.mem[p].node] && c >= 2 && c < 2940 && i in s.nodes && i != 0
    ensures Owned(m) && m.ds in m.own && m.own[m.ds] == (0, 0) && m.nodes == s.nodes && m.ib == s.ib
    ensures |m.itab| == |s.itab|
    ensures m.mem.Keys == s.mem.Keys
    ensures forall j :: j in s.mem ==> m.mem[j].cnt == s.mem[j].cnt
    ensures i < 4096 && |s.ib| == 4096 && |s.itab| == 4096
  {
    hide ViewOf, Owned, FileShape, Slots, Removed, DirOk, Leaked;
    var x := m.(itab := s.itab);
    SameTable(x, m, p);
    ZeroIsDir(s);
    RootAfterRemove(s, m, p, c);
  }

  lemma GoneNumber(s: Fs, x: Fs, p: nat, c: nat)
    requires EntryGone(s, x, p, c)
    ensures p in s.mem && p in x.mem && x.mem[p].node.no == s.mem[p].node.no
  {}

  // ---- sys_mkdir as its caller sees it ----

  /** Directory p has entry e for the directory i, which holds only its dots. */
  ghost predicate DirMade(s: Fs, s': Fs, p: nat, i: nat, c: nat, e: DirEntry) {
    && i !in s.nodes && s'.nodes == s.nodes + {i} && s'.dirs == s.dirs + {i} && Leaked(s') == Leaked(s)
    && i < |s.ib| && s'.ib == s.ib[i := true] && !s.ib[i] && s'.files == s.files
    && Added(V(s, p), V(s', p), c, e) && e.ino == i && e.ftype == FT_DIRECTORY && Newborn(Slots(V(s', i)), i, p)
    && (forall j :: j in s.nodes && j != p ==> V(s', j) == V(s, j))
  }

  lemma DirCreatedFields(s: Fs, x: Fs, y: Fs, s': Fs, p: nat, i: nat, b: nat, c: nat, e: DirEntry)
    requires Core(s) && DirCreated(s, x, y, s', p, i, b, c, e) && p in s.mem && p in s.nodes
    ensures i !in s.nodes && s'.nodes == s.nodes + {i} && s'.dirs == s.dirs + {i} && i < |s.ib|
    ensures s'.ib == s.ib[i := true]
    ensures !s.ib[i] && s'.files == s.files && e.ino == i && e.ftype == FT_DIRECTORY
    ensures MemEdited(s, s', p) && s'.mem.Keys == s.mem.Keys && i !in s.mem
  {
    hide V, Owned, DirOk, TreeOk, Slots, FileShape, Leaked, Added, OthersSame, DotsSector;
  }

  lemma InvDirMade(s: Fs, s1: Fs, x: Fs, y: Fs, s2: Fs, s3: Fs, p: nat, i: nat, b: nat, c: nat, e: DirEntry)
    requires Inv(s) && p in s.dirs && DirOpened(s, s1, p) && e.name != []
    requires DirCreated(s1, x, y, s2, p, i, b, c, e) && DirClosed(s2, s3, p)
    requires forall z :: 0 <= z < 2940 ==> Slots(V(s1, p))[z].name != e.name
    ensures Inv(s3) && DirMade(s, s3, p, i, c, e)
  {
    hide V, Owned, DirOk, TreeOk, Slots, FileShape, Leaked, Added, DirCreated, OpenOk, Numbered;
    OpenedKeeps(s, s1, p);
    CoreDirCreated(s1, x, y, s2, p, i, b, c, e);
    DirCreatedFields(s1, x, y, s2, p, i, b, c, e);
    ClosedKeeps(s2, s3, p);
    MemThrough(s, s1, s2, s3, p);
    OpenWithDir(s, s3, i);
  }

  lemma OpenWithDir(s: Fs, s3: Fs, i: nat)
    requires OpenOk(s) && MemKept(s, s3) && s3.mem.Keys == s.mem.Keys && i !in s.mem && i !in s.nodes
    requires s3.nodes == s.nodes + {i} && s3.dirs == s.dirs + {i} && s3.files == s.files
    ensures OpenOk(s3)
  {}

  /** A block that was taken and then forgotten, as sys_mkdir does when the entry does not fit. */
  lemma CoreTaken(s: Fs, x: Fs, b: nat, sector: Sector)
    requires Core(s) && BlockTaken(s, x, b, sector) && x.ib == s.ib
    ensures Core(x) && Leaked(x) == Leaked(s) + {b} && b !in Leaked(s) && forall i :: i in s.nodes ==>
              V(x, i) == V(s, i)
  {
    hide V, Owned, DirOk, TreeOk, Slots, FileShape;
    OwnedTaken(s, x, b, sector);
    assert Tables(x) == Tables(s);
  }

  /** A mkdir that failed: no inode and no view is different, and at most one block is lost. */
  ghost predicate MkdirFailed(s: Fs, s': Fs, lost: set<nat>) {
    && s' == s.(disk := s'.disk, bb := s'.bb) && |lost| <= 1 && lost !! Leaked(s)
    && Leaked(s') == Leaked(s) + lost && forall i :: i in s.nodes ==> V(s', i) == V(s, i)
  }

  lemma InvMkdirFailed(s: Fs, s1: Fs, x: Fs, s2: Fs, s3: Fs, p: nat, b: nat, sector: Sector)
    requires Inv(s) && p in s.dirs && DirOpened(s, s1, p) && BlockTaken(s1, x, b, sector)
    requires s2 == x.(ib := s1.ib) && DirClosed(s2, s3, p)
    ensures Inv(s3) && MkdirFailed(s, s3, {b})
  {
    hide V, Owned, DirOk, TreeOk, Slots, FileShape, OpenOk, FreeBlock, Leaked, Numbered;
    OpenedKeeps(s, s1, p);
    CoreTaken(s1, s2, b, sector);
    ClosedTaken(s, s1, s2, s3, p);
    ClosedKeeps(s2, s3, p);
    OpenKept(s, s3);
  }

  lemma ClosedTaken(s: Fs, s1: Fs, s2: Fs, s3: Fs, p: nat)
    requires Inv(s) && p in s.dirs && DirOpened(s, s1, p) && s2 == s1.(disk := s2.disk, bb := s2.bb)
    requires DirClosed(s2, s3, p)
    ensures s3 == s.(disk := s3.disk, bb := s3.bb) && p in s2.mem && p < |s2.itab|
    ensures p != 0 ==> s2.itab[p] == s2.mem[p].node
  {
    hide Core, V;
    CanOpen(s, p);
    if p != 0 {
      ClosedOpened(s.mem, s.itab, p);
    }
  }

  lemma OpenKept(s: Fs, s3: Fs)
    requires OpenOk(s) && s3 == s.(disk := s3.disk, bb := s3.bb)
    ensures OpenOk(s3)
  {}

  lemma MkdirNothing(s: Fs)
    requires Inv(s)
    ensures MkdirFailed(s, s, {})
  {
    hide Inv, V;
  }

  lemma TakenFree(s: Fs, a: Fs, b: Fs, lba: nat)
    requires Owned(s) && a == s.(ib := a.ib) && BlockAllocated(a, b, lba)
    ensures FreeBlock(s, lba) && lba - s.ds < |s.bb| && lba < |s.disk| && b == a.(bb := s.bb[lba - s.ds := true])
  {
    hide OwnedBy;
    assert forall x :: Bit(a, x) == Bit(s, x);
  }

  lemma BeforeDirSync(s: Fs, x: Fs, p: nat, b: nat, sector: Sector)
    requires Core(s) && p in s.dirs && BlockTaken(s, x, b, sector)
    ensures Owned(x) && V(x, p) == V(s, p) && DirShape(V(x, p)) && x == s.(ib := x.ib, bb := x.bb, disk := x.disk)
  {
    hide V, Owned, DirShape, FileShape, TreeOk;
    CoreFacts(s, p);
    OwnedTaken(s, x, b, sector);
  }

  lemma SyncedDirMem(s: Fs, x: Fs, y: Fs, p: nat, c: nat, e: DirEntry, b: nat, sector: Sector)
    requires p in s.mem && BlockTaken(s, x, b, sector) && EntrySynced(x, y, p, c, e)
    ensures p in y.mem && y.mem[p].node.no == s.mem[p].node.no && y.mem[p].cnt == s.mem[p].cnt
    ensures y.mem.Keys == s.mem.Keys
    ensures y.itab == s.itab && y.files == s.files && y.ib == x.ib && y.nodes == s.nodes && y.dirs == s.dirs
    ensures y.par == s.par
  {
    hide V, Owned, Added, Leaked, OthersSame, FreeBlock;
  }

  lemma DirCreatedFromParts(s: Fs, x: Fs, y: Fs, s2: Fs, p: nat, i: nat, b: nat, c: nat, e: DirEntry)
    requires p < WORD && i < 256 && i < |s.ib| && !s.ib[i] && x.ib == s.ib[i := true] && i !in s.mem
    requires BlockTaken(s, x, b, DotsSector(i, p)) && EntrySynced(x, y, p, c, e) && e.ino == i
    requires e.ftype == FT_DIRECTORY
    requires p in y.mem && p < |s.itab| && i < |s.itab|
    requires s2 == y.(itab := s2.itab, nodes := s2.nodes, dirs := s2.dirs, par := s2.par, own := s2.own)
    requires s2.itab == s.itab[p := y.mem[p].node][i := NewDirInode(i, b)] && s2.own == y.own[b := (i, 0)]
    requires s2.nodes == s.nodes + {i} && s2.dirs == s.dirs + {i} && s2.par == s.par[i := (p, c)]
    ensures DirCreated(s, x, y, s2, p, i, b, c, e)
  {
    hide V, EntrySynced, BlockTaken, DotsSector, NewDirInode;
  }

  // ---- sys_rmdir: the directory to remove is open while it goes ----

  /** Inode i put on the open list beside whatever is there, or counted once more. */
  ghost predicate AlsoOpened(s: Fs, si: Fs, i: nat) {
    && i < |s.itab| && (i in s.mem ==> s.mem[i].cnt >= 1 && s.itab[i] == s.mem[i].node)
    && si == s.(mem := OpenedMem(s.mem, s.itab, i))
  }

  lemma AlsoKeeps(s: Fs, si: Fs, i: nat)
    requires AlsoOpened(s, si, i)
    ensures forall j :: V(si, j) == V(s, j) && Node(si, j) == Node(s, j)
    ensures Leaked(si) == Leaked(s)
    ensures Core(s) ==> Core(si)
    ensures ClosedMem(si.mem, i) == s.mem
  {
    hide ViewOf, OwnedBy, DirOk, TreeOk, Slots, FileShape;
    assert forall b :: Bit(si, b) == Bit(s, b);
    assert Views(si) == Views(s);
    assert Tables(si) == Tables(s);
    ClosedOpened(s.mem, s.itab, i);
  }

  /** Closing an inode that is in step with its slot changes nothing either. */
  lemma DropKeeps(x: Fs, x': Fs, i: nat)
    requires i in x.mem && i < |x.itab| && x.itab[i] == x.mem[i].node && x.mem[i].cnt >= 1
    requires x' == x.(mem := ClosedMem(x.mem, i))
    ensures (forall j :: V(x', j) == V(x, j)) && Leaked(x') == Leaked(x) && (Owned(x) ==> Owned(x'))
  {
    hide ViewOf, OwnedBy;
    assert forall b :: Bit(x', b) == Bit(x, b);
    assert Views(x') == Views(x);
  }

  lemma MemWithout(s: Fs, si: Fs, x: Fs, x': Fs, p: nat, i: nat)
    requires AlsoOpened(s, si, i) && SameRest(si, x) && OnlyNode(si.mem, x.mem, p) && i != p
    requires i in x.mem && x.mem[i].cnt >= 1 && x' == x.(mem := ClosedMem(x.mem, i))
    ensures SameRest(s, x') && OnlyNode(s.mem, x'.mem, p)
    ensures x.mem[i] == si.mem[i] && i < |x.itab| && x.itab[i] == x.mem[i].node
  {
    assert x'.mem == s.mem[p := s.mem[p].(node := x'.mem[p].node)];
  }

  lemma EntryGoneWithout(s: Fs, si: Fs, x: Fs, x': Fs, p: nat, i: nat, c: nat)
    requires AlsoOpened(s, si, i) && EntryGone(si, x, p, c) && i != p && i in x.mem && x.mem[i].cnt >= 1
    requires x' == x.(mem := ClosedMem(x.mem, i))
    ensures EntryGone(s, x', p, c)
  {
    hide ViewOf, Node, Owned, Removed, Leaked, SameRest, OnlyNode, OpenedMem, ClosedMem;
    MemWithout(s, si, x, x', p, i);
    AlsoKeeps(s, si, i);
    DropKeeps(x, x', i);
    OthersThrough(s, si, x, x', p);
  }

  lemma OthersThrough(s: Fs, si: Fs, x: Fs, x': Fs, p: nat)
    requires OthersSame(si, x, p) && si.nodes == s.nodes
    requires (forall j :: V(si, j) == V(s, j)) && forall j :: V(x', j) == V(x, j)
    ensures OthersSame(s, x', p)
  {
    hide V;
  }

  lemma NodeRemovedWithout(s: Fs, si: Fs, m: Fs, s2: Fs, s2': Fs, p: nat, i: nat, c: nat)
    requires AlsoOpened(s, si, i) && NodeRemoved(si, m, s2, p, i, c) && s2.mem == m.mem && i != p && i in m.mem
    requires m.mem[i].cnt >= 1
    requires s2' == s2.(mem := ClosedMem(s2.mem, i))
    ensures NodeRemoved(s, m.(mem := ClosedMem(m.mem, i)), s2', p, i, c)
  {
    hide V, Owned, EntryGone, Node;
    var m' := m.(mem := ClosedMem(m.mem, i));
    EntryGoneWithout(s, si, m.(itab := si.itab), m'.(itab := s.itab), p, i, c);
    ReleasedWithout(m, m', s2, s2', i);
  }

  lemma ReleasedWithout(m: Fs, m': Fs, s2: Fs, s2': Fs, i: nat)
    requires Released(m, s2, i) && i in m.mem && m.mem[i].cnt >= 1 && s2.mem == m.mem
    requires m' == m.(mem := ClosedMem(m.mem, i)) && s2' == s2.(mem := ClosedMem(s2.mem, i))
    ensures Released(m', s2', i)
  {
    hide GivenBack;
    assert forall b :: Bit(m', b) == Bit(m, b) && Bit(s2', b) == Bit(s2, b);
  }

  /** dir_is_empty: only the dots are live. Then blocks 1 to 12 and the table are not there. */
  lemma EmptyDir(v: View)
    requires DirOk(v)
    ensures v.size == 48 <==> forall x :: 2 <= x < 2940 ==> !Live(Slots(v)[x])
    ensures v.size == 48 ==> v.tab == 0 && forall k :: 1 <= k < 140 ==> v.ab[k] == 0
  {
    hide Slots, CountLive;
    var t := Slots(v);
    if forall x :: 2 <= x < 2940 ==> !Live(t[x]) {
      CountNewborn(t, 2940);
      assert t[..2940] == t;
    } else {
      var x :| 2 <= x < 2940 && Live(t[x]);
      CountThree(t, x);
    }
  }

  lemma CountThree(t: seq<DirEntry>, x: nat)
    requires |t| == 2940 && Live(t[0]) && Live(t[1]) && 2 <= x < 2940 && Live(t[x])
    ensures CountLive(t) >= 3
  {
    CountUpdate(t, x, DEAD);
    CountPrefix(t[x := DEAD], 2);
  }

  /** Slot x of directory p names a directory with nothing but its dots. */
  ghost predicate EmptyChild(s: Fs, p: nat, x: nat, name: seq<byte>)
    requires x < 2940
  {
    && Slots(V(s, p))[x].name == name && Slots(V(s, p))[x].ino in s.dirs
    && forall y :: 2 <= y < 2940 ==> !Live(Slots(V(s, Slots(V(s, p))[x].ino))[y])
  }

  lemma EmptyChildSize(s: Fs, i: nat)
    requires Inv(s) && i in s.dirs
    ensures V(s, i).size == 48 <==> forall x :: 2 <= x < 2940 ==> !Live(Slots(V(s, i))[x])
  {
    hide V, Owned, FileShape, TreeOk, Slots, OpenOk, DirOk;
    EmptyDir(V(s, i));
  }

  lemma NoFurtherBlocks(s: Fs, i: nat)
    requires Core(s) && i in s.dirs && forall x :: 2 <= x < 2940 ==> !Live(Slots(V(s, i))[x])
    ensures V(s, i).tab == 0 && forall k :: 1 <= k < 140 ==> V(s, i).ab[k] == 0
  {
    hide V, Owned, FileShape, TreeOk, Slots, DirOk;
    EmptyDir(V(s, i));
  }

  lemma RemovedMem(si: Fs, m: Fs, s2: Fs, p: nat, i: nat, c: nat)
    requires NodeRemoved(si, m, s2, p, i, c) && s2.mem == m.mem && i in si.mem && i != p
    ensures i in s2.mem && s2.mem[i].cnt == si.mem[i].cnt && m.mem == s2.mem
  {
    hide V, Owned, Removed, Leaked, Released;
  }

  /** What is found in slot c of directory p, beyond the dots, is not p. */
  lemma ChildIsOther(s: Fs, p: nat, c: nat)
    requires Inv(s) && p in s.dirs && 2 <= c < 2940 && Live(Slots(V(s, p))[c])
    ensures Slots(V(s, p))[c].ino != p
  {
    hide V, Owned, FileShape, Slots, DirOk, OpenOk, HasDepth;
    var t := Tables(s);
    assert t[p] == Slots(V(s, p));
    if t[p][c].ino == p {
      NotOwnChild(t, s.nodes, s.par, p);
    }
  }

  /** What sys_rmdir may rely on when the name is a directory's. */
  lemma FoundDir(s: Fs, p: nat, c: nat, name: seq<byte>)
    requires Inv(s) && p in s.dirs && c < 2940 && Slots(V(s, p))[c].name == name && name != []
    requires Slots(V(s, p))[c].ftype == FT_DIRECTORY
    requires (name == DOT ==> p != 0) && (name == DOTDOT ==> ParentOf(s.par, p) != 0)
    ensures var i := Slots(V(s, p))[c].ino;
            && i in s.dirs && i != 0 && i in s.nodes && i < |s.itab| && (i == p <==> name == DOT)
            && (i in s.mem ==> s.mem[i].cnt >= 1 && s.itab[i] == s.mem[i].node)
            && (name != DOT && name != DOTDOT ==> c >= 2 && Counts(Slots(V(s, p))[c]))
            && (name == DOTDOT ==> exists x :: 2 <= x < 2940 && Live(Slots(V(s, i))[x]))
  {
    hide V, Core, OpenOk, Slots;
    InvFacts(s);
    FoundSlot(s, p, c);
    DotsOf(s, p);
    OnlyOneNamed(s, p, c, name);
    DirsAreInodes(s, p);
    if name == DOTDOT {
      ParentNotEmpty(s, p);
      ParentIsOther(s, p);
    } else if name != DOT {
      ChildIsOther(s, p, c);
    }
    CanOpen(s, Slots(V(s, p))[c].ino);
    DirsAreInodes(s, Slots(V(s, p))[c].ino);
  }

  lemma ParentIsOther(s: Fs, p: nat)
    requires Inv(s) && p in s.dirs && ParentOf(s.par, p) != 0
    ensures ParentOf(s.par, p) != p
  {
    hide V, Owned, FileShape, Slots, DirOk, OpenOk, Tables;
    if p in s.par {
      NotOwnChild(Tables(s), s.nodes, s.par, p);
    }
  }

  lemma RootNotNamed(s: Fs)
    requires Inv(s)
    ensures 0 !in s.par
  {
    hide V, Owned, FileShape, Slots, DirOk, OpenOk, EntriesLink, ParentsLink, DotsLink;
  }

  // ---- reading, writing and closing as their callers see them ----

  /** What file_write and file_read may rely on for an open slot. */
  lemma OpenFileFacts(s: Fs, fd: nat)
    requires Inv(s) && fd < 32 && fd < |s.files| && s.files[fd].Open?
    ensures var f := s.files[fd].ino;
            && f in s.nodes && f in s.mem && f !in s.dirs && FileShape(V(s, f))
            && f == s.mem[f].node.no < 256 <= |s.itab|
            && Owned(s) && V(s, f).size == s.mem[f].node.size && s.mem[f].cnt >= 1
  {
    hide V, Owned, DirOk, FileShape, TreeOk, Opens;
    PartsOfView(s, s.files[fd].ino);
  }

  /** Slot fd stands at position pos, and nothing else has changed. */
  function Positioned(s: Fs, fd: nat, pos: nat): Fs
    requires fd < |s.files| && s.files[fd].Open?
  {
    s.(files := s.files[fd := s.files[fd].(pos := pos)])
  }

  /** A slot's position moved inside its file. */
  lemma InvMoved(s: Fs, s': Fs, fd: nat, pos: nat)
    requires Inv(s) && fd < 32 && fd < |s.files| && s.files[fd].Open? && pos <= s.mem[s.files[fd].ino].node.size
    requires s' == s.(files := s.files[fd := s.files[fd].(pos := pos)])
    ensures Inv(s') && Leaked(s') == Leaked(s) && forall i :: V(s', i) == V(s, i)
  {
    hide V, Owned, DirOk, FileShape, TreeOk, Tables, Numbered;
    StoreOnly(s, s');
    SameViews(s, s');
    CoreSame(s, s');
    forall i
      ensures Opens(s'.files, i) == Opens(s.files, i)
    {
      OpensUpdate(s.files, fd, s'.files[fd], i);
    }
  }

  /** file_close on slot fd: one count less, and off the open list with the last one. */
  ghost predicate SlotClosed(s: Fs, s': Fs, fd: nat) {
    && fd < |s.files| && s.files[fd].Open? && s.files[fd].ino in s.mem && s.mem[s.files[fd].ino].cnt >= 1
    && var f := s.files[fd].ino;
    && s' == s.(files := s.files[fd := Closed],
                mem := if s.mem[f].cnt == 1 then s.mem - {f}
                       else s.mem[f := s.mem[f].(deny := false, cnt := s.mem[f].cnt - 1)])
  }

  lemma InvSlotClosed(s: Fs, s': Fs, fd: nat)
    requires Inv(s) && fd < 32 && SlotClosed(s, s', fd)
    ensures Inv(s') && Leaked(s') == Leaked(s) && forall i :: i in s.nodes ==> V(s', i) == V(s, i)
  {
    hide V, Owned, DirOk, FileShape, TreeOk, Tables, Opens;
    assert forall b :: Bit(s', b) == Bit(s, b);
    assert SameCore(s, s');
    SameViews(s, s');
    CoreSame(s, s');
    ZeroIsDir(s);
    OpenSlotClosed(s, s', fd);
  }

  /** The same on the blocks alone, when the inodes on the open list are in step. */
  lemma CoreSlotClosed(s: Fs, s': Fs, fd: nat)
    requires Core(s) && InStep(s) && SlotClosed(s, s', fd)
    ensures Core(s') && InStep(s') && (forall i :: i in s.nodes ==> V(s', i) == V(s, i)) && s'.dirs == s.dirs
  {
    hide V, Owned, DirOk, FileShape, TreeOk, Tables, Opens;
    assert SameCore(s, s');
    SameViews(s, s');
    CoreSame(s, s');
  }

  lemma OpenSlotClosed(s: Fs, s': Fs, fd: nat)
    requires OpenOk(s) && fd < 32 && SlotClosed(s, s', fd) && 0 in s.dirs
    ensures OpenOk(s')
  {
    var f := s.files[fd].ino;
    forall i
      ensures Opens(s'.files, i) + (if i == f then 1 else 0) == Opens(s.files, i)
    {
      OpensUpdate(s.files, fd, Closed, i);
    }
    forall k | 0 <= k < 32 && s'.files[k].Open?
      ensures s'.files[k].ino in s'.mem
    {
      OpensSome(s'.files, k);
    }
  }

  // ---- when calls succeed ----

  predicate HasFreeSlot(files: seq<OpenFile>) {
    exists k :: 3 <= k < 32 && k < |files| && files[k].Closed?
  }

  /** Slot g is the lowest free one from 3 on. */
  predicate LowestFreeSlot(files: seq<OpenFile>, g: int) {
    3 <= g < 32 && g < |files| && files[g].Closed? && forall k :: 3 <= k < g ==> files[k].Open?
  }

  ghost predicate NameIn(s: Fs, p: nat, name: seq<byte>) {
    exists x :: 0 <= x < 2940 && Slots(V(s, p))[x].name == name
  }

  lemma NotNamed(s: Fs, p: nat, name: seq<byte>)
    requires !NameIn(s, p, name)
    ensures forall x :: 0 <= x < 2940 ==> Slots(V(s, p))[x].name != name
  {
    hide V, Slots;
  }

  lemma SameNames(s: Fs, s1: Fs, p: nat, name: seq<byte>)
    requires V(s1, p) == V(s, p)
    ensures NameIn(s1, p, name) == NameIn(s, p, name)
  {
    hide V, Slots;
  }

  /** There are blocks for one more entry of directory p. */
  ghost predicate Fits(s: Fs, p: nat) {
    |FreeBlocks(s)| >= EntryNeed(V(s, p))
  }

  /** What it takes to make a file: a new name, an inode, a slot, and room for the entry. */
  ghost predicate Creatable(s: Fs, p: nat, name: seq<byte>) {
    !NameIn(s, p, name) && FirstClear(s.ib) != -1 && HasFreeSlot(s.files) && Fits(s, p)
  }

  /** What search_dir_entry finds in a directory that was opened on the way. */
  lemma NamedBy(s: Fs, p: nat, v: View, name: seq<byte>, found: bool, c: nat)
    requires v == V(s, p)
    requires found ==> c < 2940 && Slots(v)[c].name == name
    requires !found ==> forall x :: 0 <= x < 2940 ==> Slots(v)[x].name != name
    ensures found <==> NameIn(s, p, name)
  {
    hide V, Slots;
  }

  /** Slot x of directory p names a regular file. */
  ghost predicate NamesFile(s: Fs, p: nat, x: nat, name: seq<byte>)
    requires x < 2940
  {
    Slots(V(s, p))[x].name == name && Slots(V(s, p))[x].ino !in s.dirs && x >= 2
  }

  // ---- opening a file that is there ----

  /** The open list while search_file's parent directory p is open. */
  function StandingIn(s: Fs, p: nat): map<nat, MemInode>
    requires p < |s.itab|
  {
    if p == 0 then s.mem else OpenedMem(s.mem, s.itab, p)
  }

  lemma InStand(s: Fs, s1: Fs, p: nat)
    requires Inv(s) && p in s.dirs && DirOpened(s, s1, p)
    ensures Inv(s1) && s1 == s.(mem := StandingIn(s, p)) && (forall j :: j in s.nodes ==> V(s1, j) == V(s, j))
    ensures forall i, flag :: i != p ==>
              Denied(s1.mem, i, flag) == Denied(s.mem, i, flag) && (i in s1.mem <==> i in s.mem)
  {
    hide V, Inv;
    if p != 0 {
      InvHandle(s, s1, p);
    }
  }

  lemma FileNotDir(s: Fs, p: nat, c: nat)
    requires Inv(s) && p in s.dirs && 2 <= c < 2940 && Live(Slots(V(s, p))[c]) && Slots(V(s, p))[c].ino !in s.dirs
    ensures var i := Slots(V(s, p))[c].ino; i != p && i in s.nodes && i < |s.itab|
  {
    hide V, Owned, DirOk, FileShape, TreeOk, OpenOk, Slots;
    LiveNamesNode(s, p, c);
  }


  const O_WRONLY: nat := 1
  const O_RDWD: nat := 2

  /** Bit `bit` of the flag, a power of two, is set. */
  predicate Sets(flag: nat, bit: nat)
    requires bit > 0
  {
    flag / bit % 2 == 1
  }

  /** O_WRONLY or O_RDWD is set. */
  predicate Writes(flag: nat) {
    Sets(flag, O_WRONLY) || Sets(flag, O_RDWD)
  }

  /** Of the flags that sys_open admits, O_RDONLY and O_CREAT alone do not write. */
  lemma WritesAre(flag: nat)
    requires flag <= 7
    ensures Writes(flag) <==> flag in {1, 2, 3, 5, 6, 7}
  {}

  /** Someone has inode i open for writing. */
  predicate Denied(m: map<nat, MemInode>, i: nat, flag: nat) {
    i in m && m[i].deny && Writes(flag)
  }

  /** Inode i opened once more, through slot g. */
  function SlotOpened(s: Fs, i: nat, g: nat, flag: nat): Fs
    requires i < |s.itab| && g < |s.files|
  {
    var m := OpenedMem(s.mem, s.itab, i);
    s.(files := s.files[g := Open(i, 0, flag)], mem := if Writes(flag) then m[i := m[i].(deny := true)] else m)
  }

  /** Opening a file keeps the invariant; a refusal, which leaves the count raised, breaks it. */
  lemma InvSlotOpened(s: Fs, i: nat, g: nat, flag: nat)
    requires Inv(s) && i in s.nodes && i !in s.dirs && g < |s.files| && s.files[g].Closed?
    ensures i < |s.itab| && Inv(SlotOpened(s, i, g, flag)) && Leaked(SlotOpened(s, i, g, flag)) == Leaked(s)
    ensures forall j :: j in s.nodes ==> V(SlotOpened(s, i, g, flag), j) == V(s, j)
  {
    hide V, Owned, DirOk, FileShape, TreeOk, Tables, Opens;
    var s' := SlotOpened(s, i, g, flag);
    assert SameCore(s, s');
    SameViews(s, s');
    CoreSame(s, s');
    assert forall b :: Bit(s', b) == Bit(s, b);
    ZeroIsDir(s);
    OpenSlotOpened(s, i, g, flag);
  }

  lemma OpenSlotOpened(s: Fs, i: nat, g: nat, flag: nat)
    requires OpenOk(s) && i in s.nodes && i !in s.dirs && g < |s.files| && s.files[g].Closed? && i < |s.itab|
    ensures OpenOk(SlotOpened(s, i, g, flag))
  {
    var s' := SlotOpened(s, i, g, flag);
    forall j
      ensures Opens(s'.files, j) == Opens(s.files, j) + (if j == i then 1 else 0)
    {
      OpensUpdate(s.files, g, Open(i, 0, flag), j);
    }
    if i !in s.mem {
      OpensNone(s.files, i);
    }
  }

  /** A refusal changes no block. */
  lemma RefusedCore(s: Fs, i: nat)
    requires Inv(s) && i in s.mem && i < |s.itab|
    ensures var s' := s.(mem := OpenedMem(s.mem, s.itab, i));
            Core(s') && InStep(s') && forall j :: j in s.nodes ==> V(s', j) == V(s, j)
  {
    hide V, Owned, DirOk, FileShape, TreeOk, Tables, Opens;
    var s' := s.(mem := OpenedMem(s.mem, s.itab, i));
    assert SameCore(s, s');
    SameViews(s, s');
    CoreSame(s, s');
  }

  lemma RefusedBreaks(s: Fs, i: nat)
    requires Inv(s) && i in s.mem && i !in s.dirs && i < |s.itab|
    ensures !Inv(s.(mem := OpenedMem(s.mem, s.itab, i)))
  {
    hide Core, Opens;
    var s' := s.(mem := OpenedMem(s.mem, s.itab, i));
    assert s'.mem[i].cnt != Opens(s'.files, i);
  }

  // ---- handles of directories ----

  /** Directory d is counted once more, or once less. */
  ghost predicate HandleMoved(s: Fs, s': Fs, d: nat) {
    && d < |s.itab| && s' == s.(mem := s'.mem)
    && (s'.mem == OpenedMem(s.mem, s.itab, d)
        || (d in s.mem && s.mem[d].cnt >= 1 && s'.mem == ClosedMem(s.mem, d) && (d == 0 ==> s.mem[d].cnt >= 2)))
  }

  lemma HandleOpenOk(s: Fs, s': Fs, d: nat)
    requires OpenOk(s) && d in s.dirs && d in s.nodes && HandleMoved(s, s', d)
    ensures OpenOk(s') && forall i :: i in s.nodes ==> Node(s', i) == Node(s, i)
  {
    hide Opens;
  }

  /** A handle of a directory, opened or closed, changes only how often it is counted. */
  lemma InvHandle(s: Fs, s': Fs, d: nat)
    requires Inv(s) && d in s.dirs && HandleMoved(s, s', d)
    ensures Inv(s') && Leaked(s') == Leaked(s) && forall j :: j in s.nodes ==> V(s', j) == V(s, j)
  {
    hide V, Owned, DirOk, FileShape, TreeOk, Tables, OpenOk, OpenedMem, ClosedMem, Node, Numbered;
    HandleOpenOk(s, s', d);
    assert SameCore(s, s');
    SameViews(s, s');
    CoreSame(s, s');
    assert forall b :: Bit(s', b) == Bit(s, b);
  }

  // ---- rmdir of "." ----

  /** Slot x of directory q is live and names an inode that is not there. */
  ghost predicate Dangling(s: Fs, q: nat, x: nat) {
    q in s.dirs && 2 <= x < 2940 && Live(Slots(V(s, q))[x]) && Slots(V(s, q))[x].ino !in s.nodes
  }

  lemma LiveNamesNode(s: Fs, q: nat, x: nat)
    requires Core(s) && q in s.dirs && 2 <= x < 2940 && Live(Slots(V(s, q))[x])
    ensures Slots(V(s, q))[x].ino in s.nodes
  {
    hide V, Owned, DirOk, FileShape, Slots;
    var t := Tables(s);
    assert t[q] == Slots(V(s, q));
    assert t[q][x].ino in s.par;
  }

  lemma DanglingBreaks(s: Fs, q: nat, x: nat)
    requires Dangling(s, q, x)
    ensures !Inv(s)
  {
    hide V, Core, Slots, OpenOk;
    if Core(s) {
      LiveNamesNode(s, q, x);
    }
  }

  /** Directory p and its blocks are given back, and the entry that names it stays. */
  ghost predicate SelfGone(s: Fs, s': Fs, p: nat) {
    Released(s, s', p) && s'.mem == s.mem
  }

  lemma SelfGoneDangles(s: Fs, s': Fs, p: nat)
    requires Inv(s) && p in s.dirs && p != 0 && SelfGone(s, s', p)
    ensures p in s.par && Dangling(s', s.par[p].0, s.par[p].1) && !Inv(s')
  {
    hide V, Owned, DirOk, FileShape, Slots, OpenOk, Leaked, HasDepth;
    OwnedAfterRelease(s, s', p);
    Named(s, p);
    NotOwnChild(Tables(s), s.nodes, s.par, p);
    DanglingBreaks(s', s.par[p].0, s.par[p].1);
  }

  /** The same, with the directory closed again by rmdir itself. */
  lemma SelfGoneWithout(s1: Fs, si: Fs, s2: Fs, s2': Fs, p: nat)
    requires AlsoOpened(s1, si, p) && SelfGone(si, s2, p) && p in s2.mem && s2.mem[p].cnt >= 1
    requires s2' == s2.(mem := ClosedMem(s2.mem, p))
    ensures SelfGone(s1, s2', p)
  {
    hide V, GivenBack;
    ClosedOpened(s1.mem, s1.itab, p);
    assert forall b :: Bit(s1, b) == Bit(si, b) && Bit(s2', b) == Bit(s2, b);
  }

  lemma SelfMem(s1: Fs, s2: Fs, p: nat)
    requires SelfGone(s1, s2, p)
    ensures s2.mem == s1.mem
  {}

  /** And with its opening as the parent undone. */
  lemma SelfGoneClosed(s: Fs, s1: Fs, s2: Fs, s3: Fs, p: nat)
    requires Inv(s) && p in s.dirs && p != 0 && DirOpened(s, s1, p) && SelfGone(s1, s2, p) && DirClosed(s2, s3, p)
    ensures SelfGone(s, s3, p)
  {
    hide V, Core, GivenBack;
    CanOpen(s, p);
    ClosedOpened(s.mem, s.itab, p);
    assert forall b :: Bit(s, b) == Bit(s1, b) && Bit(s3, b) == Bit(s2, b);
  }

  /** The slot that names an inode. */
  lemma Named(s: Fs, i: nat)
    requires Core(s) && i in s.nodes && i != 0
    ensures i in s.par && s.par[i].0 in s.dirs && s.par[i].0 in s.nodes && 2 <= s.par[i].1 < 2940
    ensures var e := Slots(V(s, s.par[i].0))[s.par[i].1]; Live(e) && e.ino == i
  {
    hide V, Owned, DirOk, FileShape, Slots, HasDepth;
    var t := Tables(s);
    assert t[s.par[i].0] == Slots(V(s, s.par[i].0));
  }

  /** The dots of directory p. */
  lemma DotsOf(s: Fs, p: nat)
    requires Core(s) && p in s.dirs
    ensures var t := Slots(V(s, p));
            && t[0].name == DOT && t[0].ino == p && t[0].ftype == FT_DIRECTORY
            && t[1].name == DOTDOT && t[1].ino == ParentOf(s.par, p) && t[1].ftype == FT_DIRECTORY
  {
    hide V, Owned, FileShape, Slots, HasDepth;
    assert Tables(s)[p] == Slots(V(s, p));
    assert DirOk(V(s, p));
  }

  /** The parent of a directory other than the root is not empty. */
  lemma ParentNotEmpty(s: Fs, p: nat)
    requires Inv(s) && p in s.dirs && ParentOf(s.par, p) != 0
    ensures var q := ParentOf(s.par, p);
            q in s.dirs && V(s, q).size != 48 && exists x :: 2 <= x < 2940 && Live(Slots(V(s, q))[x])
  {
    hide V, Owned, DirOk, FileShape, Slots, OpenOk, TreeOk, Tables;
    DirsAreInodes(s, p);
    RootNotNamed(s);
    Named(s, p);
    EmptyChildSize(s, s.par[p].0);
  }

  lemma DirsAreNodes(s: Fs)
    requires Inv(s)
    ensures s.dirs <= s.nodes
  {
    hide V, Owned, DirOk, FileShape, TreeOk, OpenOk;
  }

  lemma DirsAreInodes(s: Fs, p: nat)
    requires Core(s) && p in s.dirs
    ensures p in s.nodes
  {}

  /** No counted entry of a directory names the directory itself. */
  lemma NoSelf(s: Fs, p: nat)
    requires Core(s) && p in s.dirs
    ensures forall x :: 0 <= x < 2940 && Counts(Slots(V(s, p))[x]) ==> Slots(V(s, p))[x].ino != p
  {
    hide V, Owned, FileShape, Slots, HasDepth;
    var t := Tables(s);
    assert t[p] == Slots(V(s, p));
    assert DirOk(V(s, p));
    forall x | 0 <= x < 2940 && Counts(t[p][x])
      ensures t[p][x].ino != p
    {
      CountedSlot(V(s, p), x);
      if t[p][x].ino == p {
        NotOwnChild(t, s.nodes, s.par, p);
      }
    }
  }

  // ---- giving everything back ----

  /** The references determine the owners, and the owners with the lost blocks the bitmap. */
  lemma BitsFromRefs(s: Fs, s': Fs)
    requires Owned(s) && Owned(s') && SameSize(s, s') && s'.nodes == s.nodes && Leaked(s') == Leaked(s)
    requires forall i, k :: i in s.nodes && 0 <= k <= 140 ==> Ref(V(s', i), k) == Ref(V(s, i), k)
    ensures s'.bb == s.bb
  {
    hide V;
    forall b | s.ds <= b < s.ds + |s.bb|
      ensures Bit(s', b) == Bit(s, b)
    {
      if b < |s.disk| {
        SameOwner(s, s', b);
        SameOwner(s', s, b);
        assert b in Leaked(s') <==> b in Leaked(s);
      }
    }
    forall n | 0 <= n < |s.bb|
      ensures s'.bb[n] == s.bb[n]
    {
      assert Bit(s', s.ds + n) == Bit(s, s.ds + n);
    }
  }

  lemma SameOwner(s: Fs, s': Fs, b: nat)
    requires Owned(s) && Owned(s') && s'.nodes == s.nodes
    requires forall i, k :: i in s.nodes && 0 <= k <= 140 ==> Ref(V(s', i), k) == Ref(V(s, i), k)
    ensures b in s.own ==> b in s'.own
  {
    hide V;
    if b in s.own {
      var (i, k) := s.own[b];
      assert Ref(Views(s)[i], k) == b;
      OwnerOf(s', i, k);
    }
  }

  /** Adding an entry to a directory and removing it again leaves the references as they were. */
  lemma AddThenRemove(v: View, v1: View, v2: View, c: nat, e: DirEntry)
    requires DirOk(v) && Added(v, v1, c, e) && Removed(v1, v2, c)
    ensures v2.ab == v.ab && v2.tab == v.tab && Slots(v2) == Slots(v)
  {
    hide Slots, CountLive;
    var t := Slots(v);
    assert t[c] == DEAD;
    assert Slots(v2) == t;
    assert v2.ab == v.ab by {
      assert v.ab[c / 21] != 0 <==> HasLive(t, c / 21);
      if c / 21 == 0 {
        assert Live(t[0]);
      }
    }
    if v.tab != 0 {
      var k :| 12 <= k < 140 && v.ab[k] != 0;
      assert k == 12;
    }
  }

  /** Everything but file i is as before. */
  ghost predicate OnlyFile(s: Fs, s': Fs, i: nat) {
    && s'.nodes == s.nodes && s'.dirs == s.dirs && s'.ib == s.ib && Leaked(s') == Leaked(s) && SameSize(s, s')
    && forall j :: j in s.nodes && j != i ==> V(s', j) == V(s, j)
  }

  lemma WroteOnly(s: Fs, s': Fs, fd: nat, bytes: seq<byte>)
    requires Inv(s) && Wrote(s, s', fd, bytes)
    ensures OnlyFile(s, s', s.files[fd].ino) && fd < |s'.files| && s'.files[fd].Open?
    ensures s'.files[fd].ino == s.files[fd].ino
    ensures s'.files[fd].flag == s.files[fd].flag
    ensures V(s, s.files[fd].ino).size <= MAX_SIZE && V(s', s.files[fd].ino).size <= MAX_SIZE
    ensures Content(V(s', s.files[fd].ino)) == Content(V(s, s.files[fd].ino)) + bytes
    ensures s'.files == s.files[fd := s'.files[fd]]
  {
    hide V, Owned, DirOk, TreeOk, Slots, FileShape, Content, Tables, Leaked;
    var f := s.files[fd].ino;
    var m := s'.(itab := s.itab, files := s.files);
    WroteNodes(s, s', fd, bytes);
    SameButTable(m, s', f);
    ShapeBlocks(V(s', f));
  }

  lemma OnlyFileTwice(s: Fs, s1: Fs, s2: Fs, i: nat)
    requires OnlyFile(s, s1, i) && OnlyFile(s1, s2, i)
    ensures OnlyFile(s, s2, i)
  {
    hide V, Leaked;
  }

  lemma ClosedOnly(s: Fs, s': Fs, fd: nat, i: nat)
    requires Inv(s) && fd < 32 && SlotClosed(s, s', fd)
    ensures OnlyFile(s, s', i)
  {
    hide V, Leaked, Inv;
    InvSlotClosed(s, s', fd);
  }

  /** Making file i in directory p, changing nothing but that file, and removing it again brings
      back both bitmaps. */
  lemma BitmapsRestored(s: Fs, s1: Fs, s2: Fs, s3: Fs, p: nat, i: nat, c: nat, fd: nat, e: DirEntry, flag: nat)
    requires Inv(s) && Inv(s3) && p in s.dirs && FileMade(s, s1, p, i, c, fd, e, flag)
    requires OnlyFile(s1, s2, i) && NodeGone(s2, s3, p, i, c)
    ensures s3.bb == s.bb && s3.ib == s.ib && s3.nodes == s.nodes && s3.dirs == s.dirs
    ensures Slots(V(s3, p)) == Slots(V(s, p))
    ensures forall j :: j in s.nodes && j != p ==> V(s3, j) == V(s, j)
  {
    hide V, DirOk, TreeOk, Slots, FileShape, Leaked, Owned, Added, Removed, OpenOk, Tables;
    assert p in s.nodes && p != i;
    AddThenRemove(V(s, p), V(s1, p), V(s3, p), c, e);
    forall j, k | j in s.nodes && 0 <= k <= 140
      ensures Ref(V(s3, j), k) == Ref(V(s, j), k)
    {}
    assert s.ib[i := true][i := false] == s.ib;
    assert s.nodes + {i} - {i} == s.nodes;
    assert s1.dirs - {i} == s.dirs;
    BitsFromRefs(s, s3);
  }

  /** The entry that was made is the one its name finds. */
  lemma SameEntry(s: Fs, s1: Fs, s2: Fs, p: nat, i: nat, c: nat, fd: nat, e: DirEntry, flag: nat, x: nat)
    requires Inv(s) && Inv(s2) && p in s.dirs && FileMade(s, s1, p, i, c, fd, e, flag) && OnlyFile(s1, s2, i)
    requires e.name != []
    requires x < 2940 && Slots(V(s2, p))[x].name == e.name
    ensures x == c && Slots(V(s2, p))[c] == e && i !in s2.dirs
  {
    hide V, DirOk, TreeOk, Slots, FileShape, Leaked, Owned, OpenOk, Tables;
    assert p in s.nodes && p != i;
    OnlyOneNamed(s2, p, c, e.name);
  }
}
