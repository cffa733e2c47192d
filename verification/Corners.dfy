/** Runs of calls into corners of the file system: a slot that no descriptor leads to, an inode number
    that goes onto the open list twice, and a block that sys_mkdir loses. */
module Corners {
  import opened Codec
  import opened Bitmap
  import opened Store
  import opened Directory
  import opened FileMoves
  import opened Tree
  import opened Consistency
  import opened Room
  import opened Steps
  import opened FdTables
  import opened Partitions
  import opened Calls
  import opened Format
  import InodeTables

  // ---- a full descriptor table ----

  /** A file that is open cannot be unlinked, whatever its name. */
  lemma HeldName(s: Fs, s1: Fs, p: nat, i: nat, c: nat, g: nat, e: DirEntry, flag: nat)
    requires Inv(s) && Inv(s1) && p in s.dirs && FileMade(s, s1, p, i, c, g, e, flag) && e.name != []
    ensures p in s1.dirs && !CanUnlink(s1, p, e.name)
  {
    hide V, Core, OpenOk, Added, Leaked, Slots, Blocks;
    AddedHere(V(s, p), V(s1, p), c, e);
    OnlyOneNamed(s1, p, c, e.name);
    forall x | 0 <= x < 2940
      ensures !Removable(s1, p, x, e.name)
    {
      assert s1.files[g].Open? && s1.files[g].ino == i;
    }
  }

  lemma AddedHere(v: View, v': View, c: nat, e: DirEntry)
    requires Added(v, v', c, e)
    ensures c < 2940 && Slots(v')[c] == e
  {
    hide Slots;
  }

  /** sys_open with O_CREAT when the process has no descriptor left: it is -1, but the file is there, its
      slot is taken, and sys_unlink does not remove it. */
  method CreateWithoutFd(part: Partition, p: nat, name: seq<byte>, flag: nat) returns (fd: int, r: int, ghost g: int)
    requires Inv(part.S()) && p in part.dirs && Storable(DirEntry(name, 0, FT_REGULAR)) && name != []
    requires FirstClear(part.ib) < 256 && Creatable(part.S(), p, name) && !HasFreeFd(part.fds)
    modifies part
    ensures fd == -1 && r == -1 && Inv(part.S()) && part.fds == old(part.fds)
    ensures NameIn(part.S(), p, name) && LowestFreeSlot(old(part.files), g) && g < |part.files| && part.files[g].Open?
  {
    hide V, Inv, FileMade, Slots, Creatable, FreeBlocks, EntryNeed, CanUnlink, CreateStep, RemoveStep;
    ghost var s := part.S();
    ghost var i, c;
    fd, g, i, c := part.Create(p, name, flag);
    ghost var s1 := part.S();
    HeldName(s, s1, p, i, c, g, DirEntry(name, i, FT_REGULAR), flag);
    MadeFacts(s, s1, p, i, c, g, DirEntry(name, i, FT_REGULAR), flag);
    MadeName(s, s1, p, i, c, g, DirEntry(name, i, FT_REGULAR), flag);
    ghost var j, x;
    r, j, x := part.Unlink(p, name);
  }

  lemma MadeName(s: Fs, s1: Fs, p: nat, i: nat, c: nat, g: nat, e: DirEntry, flag: nat)
    requires FileMade(s, s1, p, i, c, g, e, flag)
    ensures NameIn(s1, p, e.name) && s1.dirs == s.dirs
  {
    hide V, Added, Leaked, Slots, Blocks;
    AddedHere(V(s, p), V(s1, p), c, e);
  }

  // ---- a refused open ----

  /** The file i, made in the root directory, is there under its name. */
  ghost predicate Standing(s: Fs, i: nat, c: nat, name: seq<byte>) {
    && Core(s) && InStep(s) && 0 in s.dirs && 0 in s.mem && |s.files| == 32
    && c < 2940 && NamesFile(s, 0, c, name) && Slots(V(s, 0))[c].ino == i && i in s.nodes
  }

  lemma StandingClosed(s: Fs, s': Fs, fd: nat, i: nat, c: nat, name: seq<byte>)
    requires Standing(s, i, c, name) && SlotClosed(s, s', fd) && s.files[fd].ino == i
    ensures Standing(s', i, c, name)
  {
    hide V, Core, Slots, InStep;
    CoreSlotClosed(s, s', fd);
    DirsAreInodes(s, 0);
  }

  lemma StandingMade(s: Fs, s1: Fs, i: nat, c: nat, g: nat, e: DirEntry, flag: nat)
    requires Inv(s) && Inv(s1) && 0 in s.dirs && FileMade(s, s1, 0, i, c, g, e, flag)
    ensures Standing(s1, i, c, e.name) && i !in s.nodes && s1.ib == s.ib[i := true] && i < |s.ib| && !s.ib[i]
    ensures i in s1.mem && s1.mem[i].cnt == 1 && !s1.mem[i].deny && g < |s.files|
    ensures s1.files == s.files[g := Open(i, 0, flag)]
  {
    hide V, Core, Added, Leaked, Slots, Blocks;
    AddedHere(V(s, 0), V(s1, 0), c, e);
    MadeSlot(s, 0, c, V(s1, 0), e);
    DirsAreInodes(s, 0);
    if i in s.dirs {
      DirsAreInodes(s, i);
    }
    OpenInStep(s1);
    InvFacts(s1);
  }

  lemma MadeSlot(s: Fs, p: nat, c: nat, v: View, e: DirEntry)
    requires Core(s) && p in s.dirs && Added(V(s, p), v, c, e)
    ensures 2 <= c
  {
    hide V, Owned, FileShape, TreeOk, Slots;
    assert DirOk(V(s, p));
    AddedSlots(V(s, p), v, c, e);
  }

  lemma StandingFound(s: Fs, i: nat, c: nat, name: seq<byte>)
    requires Standing(s, i, c, name)
    ensures exists x :: 0 <= x < 2940 && NamesFile(s, 0, x, name)
    ensures 0 in s.dirs
  {
    hide V, Core, Slots, NamesFile;
  }

  lemma StandingOpened(s: Fs, i: nat, c: nat, name: seq<byte>, g: nat, flag: nat)
    requires Inv(s) && Standing(s, i, c, name) && i in s.mem && g < |s.files| && s.files[g].Closed?
    ensures i < |s.itab| && Standing(SlotOpened(s, i, g, flag), i, c, name)
  {
    hide V, Core, Slots, OpenOk;
    InvSlotOpened(s, i, g, flag);
    DirsAreInodes(s, 0);
    OpenInStep(SlotOpened(s, i, g, flag));
  }

  lemma StandingRefused(s: Fs, i: nat, c: nat, name: seq<byte>)
    requires Inv(s) && Standing(s, i, c, name) && i in s.mem && i < |s.itab|
    ensures Standing(s.(mem := OpenedMem(s.mem, s.itab, i)), i, c, name)
  {
    hide V, Core, Slots, OpenOk, InStep;
    RefusedCore(s, i);
    DirsAreInodes(s, 0);
  }

  /** Of two files found under one name the inode is the same. */
  lemma SameFound(s: Fs, i: nat, c: nat, x: nat, name: seq<byte>)
    requires Standing(s, i, c, name) && x < 2940 && NamesFile(s, 0, x, name) && name != []
    ensures Slots(V(s, 0))[x].ino == i
  {
    hide V, Core, Slots, InStep;
    OnlyOneInCore(s, 0, c, name);
  }

  /** sys_open for writing of a file under its name in the root directory. */
  method OpenToWrite(part: Partition, name: seq<byte>, ghost i: nat, ghost c: nat) returns (fd: int, ghost g: int)
    requires Inv(part.S()) && name != [] && Standing(part.S(), i, c, name) && i in part.mem && HasFreeSlot(part.files)
    modifies part
    ensures LowestFreeSlot(old(part.files), g) && i < |part.itab|
    ensures if old(part.mem)[i].deny
            then fd == -1 && !Inv(part.S()) && part.S() == old(part.S()).(mem := OpenedMem(old(part.mem), part.itab, i))
            else Inv(part.S()) && part.S() == SlotOpened(old(part.S()), i, g, 2)
    ensures Standing(part.S(), i, c, name)
  {
    hide V, Inv, Slots, Standing, NamesFile;
    ghost var s := part.S();
    StandingFound(s, i, c, name);
    ghost var j, x;
    fd, g, j, x := part.OpenFound(0, name, 2);
    SameFound(s, i, c, x, name);
    assert StandingIn(s, 0) == s.mem && s.(mem := s.mem) == s;
    if s.mem[i].deny {
      StandingRefused(s, i, c, name);
    } else {
      StandingOpened(s, i, c, name, g, 2);
    }
  }

  /** Two slots closed again. */
  lemma StandingTwice(s: Fs, s1: Fs, s2: Fs, a: nat, b: nat, i: nat, c: nat, name: seq<byte>)
    requires Standing(s, i, c, name) && SlotClosed(s, s1, a) && SlotClosed(s1, s2, b) && s.files[a].ino == i && a != b
    requires b < |s.files| && s.files[b].Open? && s.files[b].ino == i && s.mem[i].cnt == 3
    ensures Standing(s2, i, c, name) && s2.files == s.files[a := Closed][b := Closed] && i in s2.mem
    ensures s2.mem[i].cnt == 1 && s2.ib == s.ib
  {
    hide V, Standing;
    StandingClosed(s, s1, a, i, c, name);
    StandingClosed(s1, s2, b, i, c, name);
  }

  lemma NoSlotHolds(s: Fs, i: nat)
    requires Inv(s) && i !in s.nodes
    ensures forall k :: 0 <= k < |s.files| && s.files[k].Open? ==> s.files[k].ino != i
  {
    hide Core;
  }

  lemma CanGo(s: Fs, i: nat, c: nat, name: seq<byte>)
    requires Standing(s, i, c, name) && forall k :: 0 <= k < |s.files| && s.files[k].Open? ==> s.files[k].ino != i
    ensures CanUnlink(s, 0, name)
  {
    hide V, Core, Slots, InStep;
    assert Removable(s, 0, c, name);
  }

  lemma StillListed(s: Fs, m: Fs, s': Fs, i: nat, c: nat, x: nat, name: seq<byte>)
    requires Standing(s, i, c, name) && NodeRemoved(s, m, s', 0, i, x) && s'.mem == m.mem && i in s.mem && i != 0
    ensures i in s'.mem && i < |s.ib| && s'.ib == s.ib[i := false]
  {
    hide V, Core, Slots, InStep, NodeRemoved;
    RemovedFields(s, m, s', 0, i, x);
  }

  lemma FirstClearBack(ib: seq<bool>, i: nat)
    requires i < |ib| && !ib[i]
    ensures ib[i := true][i := false] == ib
  {}

  lemma TwoSlots(files: seq<OpenFile>, i: nat)
    requires |files| == 32 && files[3].Closed? && files[4].Closed?
    requires forall k :: 0 <= k < |files| && files[k].Open? ==> files[k].ino != i
    ensures Opens(files[3 := Open(i, 0, 6)][4 := Open(i, 0, 2)], i) == 2
  {
    OpensNone(files, i);
    OpensUpdate(files, 3, Open(i, 0, 6), i);
    OpensUpdate(files[3 := Open(i, 0, 6)], 4, Open(i, 0, 2), i);
  }

  /** A file is made in slot 3, opened for writing in slot 4, and refused to the next writer: its count is
      3 although two slots hold it. */
  method MakeAndRefuse(part: Partition, name: seq<byte>) returns (refused: int, ghost i: nat, ghost c: nat)
    requires |part.files| == 32 && part.files[3].Closed? && part.files[4].Closed? && part.files[5].Closed?
    requires Inv(part.S()) && 0 in part.dirs && Storable(DirEntry(name, 0, FT_REGULAR)) && name != []
    requires FirstClear(part.ib) < 256 && Creatable(part.S(), 0, name)
    modifies part
    ensures refused == -1 && i == FirstClear(old(part.ib)) && i !in old(part.nodes) && i < |old(part.ib)|
    ensures !old(part.ib)[i] && part.ib == old(part.ib)[i := true]
    ensures part.files == old(part.files)[3 := Open(i, 0, 6)][4 := Open(i, 0, 2)] && i in part.mem
    ensures part.mem[i].cnt == 3
    ensures Standing(part.S(), i, c, name) && Opens(part.files, i) == 2
  {
    hide V, Inv, FileMade, Slots, Creatable, FreeBlocks, EntryNeed, Standing, Storable, NameIn, CreateStep;
    ghost var s0 := part.S();
    ghost var g;
    var fd;
    fd, g, i, c := part.Create(0, name, 6);
    StandingMade(s0, part.S(), i, c, g, DirEntry(name, i, FT_REGULAR), 6);
    assert part.files[3].Open? && part.files[4].Closed?;
    fd, g := OpenToWrite(part, name, i, c);
    assert g == 4 && part.files[5].Closed?;
    refused, g := OpenToWrite(part, name, i, c);
    NoSlotHolds(s0, i);
    TwoSlots(s0.files, i);
  }

  /** A file is made, opened for writing, refused to a second writer, closed twice and unlinked. Its number
      is free then, the next to be given out, and still on the open list. */
  method RefusedRun(part: Partition, name: seq<byte>) returns (refused: int, gone: int, ghost i: nat)
    requires |part.files| == 32 && part.files[3].Closed? && part.files[4].Closed? && part.files[5].Closed?
    requires Inv(part.S()) && 0 in part.dirs && Storable(DirEntry(name, 0, FT_REGULAR)) && name != []
    requires FirstClear(part.ib) < 256 && Creatable(part.S(), 0, name)
    modifies part
    ensures refused == -1 && gone == 0 && i == FirstClear(old(part.ib)) == FirstClear(part.ib)
    ensures part.ib == old(part.ib) && i in part.mem
  {
    hide V, Inv, FileMade, Slots, Creatable, FreeBlocks, EntryNeed, CanUnlink, Standing, NodeRemoved, SlotClosed,
         NamesFile, Removable,
         Storable, FirstClear, NameIn;
    ghost var s0 := part.S();
    ghost var c, x, m, j;
    refused, i, c := MakeAndRefuse(part, name);
    CloseBoth(part, i, c, name);
    ghost var s5 := part.S();
    assert s5.files == s0.files;
    NoSlotHolds(s0, i);
    CanGo(s5, i, c, name);
    StandingParts(s5, i, c, name);
    gone, j, x, m := part.UnlinkHere(0, name);
    RemovedFound(s5, i, c, x, name);
    StillListed(s5, m, part.S(), i, c, x, name);
    FirstClearBack(s0.ib, i);
  }

  /** The two descriptors of the file in slots 3 and 4 closed. */
  method CloseBoth(part: Partition, ghost i: nat, ghost c: nat, ghost name: seq<byte>)
    requires Standing(part.S(), i, c, name) && |part.files| == 32 && i in part.mem && part.mem[i].cnt == 3
    requires part.files[3].Open? && part.files[3].ino == i && part.files[4].Open? && part.files[4].ino == i
    modifies part
    ensures Standing(part.S(), i, c, name) && part.files == old(part.files)[3 := Closed][4 := Closed]
    ensures i in part.mem && part.mem[i].cnt == 1 && part.ib == old(part.ib) && part.nodes == old(part.nodes)
  {
    hide V, Standing;
    ghost var s3 := part.S();
    part.CloseSlot(3);
    ghost var s4 := part.S();
    part.CloseSlot(4);
    StandingTwice(s3, s4, part.S(), 3, 4, i, c, name);
  }

  lemma StandingParts(s: Fs, i: nat, c: nat, name: seq<byte>)
    requires Standing(s, i, c, name)
    ensures Core(s) && 0 in s.dirs && 0 in s.mem && (forall j :: j in s.mem ==> s.mem[j].cnt >= 1) && i != 0
  {
    hide V, Core, Slots;
    ZeroDir(s);
  }

  lemma ZeroDir(s: Fs)
    requires Core(s)
    ensures 0 in s.dirs
  {
    hide V, Owned, FileShape, DirOk, Slots;
    ZeroIsDir(s);
  }

  /** What sys_unlink removed is the file. */
  lemma RemovedFound(s: Fs, i: nat, c: nat, x: nat, name: seq<byte>)
    requires Standing(s, i, c, name) && x < 2940 && Removable(s, 0, x, name) && name != []
    ensures Slots(V(s, 0))[x].ino == i
  {
    hide V, Core, Slots, InStep;
    SameFound(s, i, c, x, name);
  }

  /** The numbers on open_inodes are those of the open list here, each once. */
  ghost predicate Listed(l: seq<InodeTables.Cached>, mem: map<nat, MemInode>) {
    && InodeTables.Distinct(l) && (forall k :: 0 <= k < |l| ==> l[k].no in mem)
    && forall no :: no in mem ==> exists k :: 0 <= k < |l| && l[k].no == no
  }

  /** So the file that is made next is on open_inodes twice. */
  lemma NextCreateRepeats(l: seq<InodeTables.Cached>, mem: map<nat, MemInode>, no: nat)
    requires Listed(l, mem) && no in mem
    ensures !InodeTables.Distinct([InodeTables.Cached(no, 1)] + l)
  {
    InodeTables.PushKeepsDistinct(l, no);
  }

  // ---- directories removed while they are in use ----

  /** A directory just made holds nothing but its dots, and nobody has it open. */
  lemma MadeEmpty(s: Fs, s1: Fs, p: nat, i: nat, c: nat, e: DirEntry)
    requires Inv(s) && Inv(s1) && p in s.dirs && DirMade(s, s1, p, i, c, e)
    ensures i in s1.dirs && p in s1.dirs && i != 0 && EmptyChild(s1, i, 0, DOT)
    ensures c < 2940 && EmptyChild(s1, p, c, e.name) && Slots(V(s1, p))[c].ino == i
  {
    hide V, Core, Added, Leaked, Slots, OpenOk;
    AddedHere(V(s, p), V(s1, p), c, e);
    InvFacts(s);
    ZeroDir(s);
    DirsAreInodes(s, 0);
    assert Slots(V(s1, i))[0].name == DOT && Slots(V(s1, i))[0].ino == i;
  }

  /** mkdir of a directory, and rmdir of its ".": some entry names an inode that is not there. */
  method RemoveSelf(part: Partition, p: nat, name: seq<byte>) returns (r: int, ghost q: nat, ghost x: nat)
    requires Inv(part.S()) && p in part.dirs && Storable(DirEntry(name, 0, FT_DIRECTORY)) && name != []
    requires FirstClear(part.ib) < 256 && !NameIn(part.S(), p, name) && FirstClear(part.ib) != -1
    requires |FreeBlocks(part.S())| >= 1 + EntryNeed(V(part.S(), p))
    modifies part
    ensures r == 0 && Dangling(part.S(), q, x)
  {
    hide V, Inv, Core, DirMade, MkdirStep, NameIn, FirstClear, FreeBlocks, EntryNeed, EmptyChild, SelfGone, Dangling,
         NodeGone,
         RemoveStep, Storable, MkdirLost, MkdirFailed, Slots;
    ghost var s := part.S();
    ghost var c, lost;
    var i, j;
    r, i, c, lost := part.MakeDir(p, name);
    ghost var s1 := part.S();
    MadeEmpty(s, s1, p, i, c, DirEntry(name, i, FT_DIRECTORY));
    r, j, c := part.RemoveDir(i, DOT);
    q, x := s1.par[i].0, s1.par[i].1;
  }

  /** mkdir of a directory, a handle of it, and rmdir: its number is free and still on the open list. */
  method RemoveHeld(part: Partition, p: nat, name: seq<byte>) returns (r: int, i: nat)
    requires Inv(part.S()) && p in part.dirs && Storable(DirEntry(name, 0, FT_DIRECTORY)) && name != []
    requires name != DOT && name != DOTDOT
    requires FirstClear(part.ib) < 256 && !NameIn(part.S(), p, name) && FirstClear(part.ib) != -1
    requires |FreeBlocks(part.S())| >= 1 + EntryNeed(V(part.S(), p))
    modifies part
    ensures r == 0 && i in part.mem && i !in part.nodes && !Inv(part.S())
  {
    hide V, Inv, Core, DirMade, MkdirStep, NameIn, FirstClear, FreeBlocks, EntryNeed, EmptyChild, SelfGone, Dangling,
         NodeGone,
         RemoveStep, Storable, MkdirLost, MkdirFailed, Slots, OpenedMem;
    ghost var s := part.S();
    ghost var c, lost;
    r, i, c, lost := part.MakeDir(p, name);
    ghost var s1 := part.S();
    MadeEmpty(s, s1, p, i, c, DirEntry(name, i, FT_DIRECTORY));
    part.OpenDir(i);
    ghost var s2 := part.S();
    HeldEmpty(s1, s2, p, i, c, name);
    ghost var x;
    r, i, x := part.RemoveDir(p, name);
    SameSlot(s2, p, c, x, name);
    GoneNode(s2, part.S(), p, i, x);
  }

  /** The handle changes nothing of that. */
  lemma HeldEmpty(s1: Fs, s2: Fs, p: nat, i: nat, c: nat, name: seq<byte>)
    requires Inv(s1) && Inv(s2) && i < |s1.itab| && s2 == s1.(mem := OpenedMem(s1.mem, s1.itab, i)) && i in s1.dirs
    requires p in s1.dirs
    requires c < 2940 && EmptyChild(s1, p, c, name) && Slots(V(s1, p))[c].ino == i
    ensures i in s2.mem && EmptyChild(s2, p, c, name) && Slots(V(s2, p))[c].ino == i && Slots(V(s2, p))[c].name == name
  {
    hide V, Inv, Slots;
    InvHandle(s1, s2, i);
    DirsAreNodes(s1);
  }

  lemma SameSlot(s: Fs, p: nat, c: nat, x: nat, name: seq<byte>)
    requires Inv(s) && p in s.dirs && c < 2940 && Slots(V(s, p))[c].name == name && name != []
    requires x < 2940 && EmptyChild(s, p, x, name)
    ensures x == c
  {
    hide V, Inv, Slots;
    OnlyOneNamed(s, p, c, name);
  }

  lemma GoneNode(s: Fs, s': Fs, p: nat, i: nat, c: nat)
    requires NodeGone(s, s', p, i, c)
    ensures i !in s'.nodes
  {
    hide V, Leaked, Slots, Removed;
  }

  // ---- a block that sys_mkdir loses ----

  /** The name of the k-th file. */
  function Letter(k: nat): (name: seq<byte>)
    requires k < 100
    ensures |name| == 1
  {
    [97 + k]
  }

  /** The slots of a root directory that holds k files under these names. */
  ghost predicate Lettered(t: seq<DirEntry>, k: nat) {
    && |t| == 2940 && k < 100 && t[0].name == DOT && t[1].name == DOTDOT
    && (forall x :: 0 <= x < k + 2 ==> Live(t[x])) && (forall x :: 2 <= x < k + 2 ==> t[x].name == Letter(x - 2))
    && (forall x :: k + 2 <= x < 2940 ==> t[x] == DEAD)
  }

  /** The root directory holds k files, none is open, and `room` blocks are free. */
  ghost predicate Filled(s: Fs, k: nat, room: nat) {
    && Inv(s) && 0 in s.dirs && Lettered(Slots(V(s, 0)), k) && Leaked(s) == {}
    && |s.ib| == 4096 && (forall j :: 0 <= j < 4096 ==> s.ib[j] == (j <= k))
    && s.files == seq(32, _ => Closed) && |FreeBlocks(s)| == room
  }

  lemma NextLetter(s: Fs, k: nat, room: nat)
    requires Filled(s, k, room) && k < 19
    ensures Creatable(s, 0, Letter(k)) && FirstClear(s.ib) == k + 1 && Storable(DirEntry(Letter(k), 0, FT_REGULAR))
    ensures EntryNeed(V(s, 0)) == 0
  {
    hide V, Inv, Slots, FreeBlocks, Leaked, FirstDead;
    var t := Slots(V(s, 0));
    DeadIsFirst(t, k + 2);
    RootHasBlock(s);
    assert forall x :: 0 <= x < 2940 ==> t[x].name != Letter(k);
    assert s.files[3].Closed?;
    assert !s.ib[k + 1];
  }

  lemma RootHasBlock(s: Fs)
    requires Inv(s) && 0 in s.dirs
    ensures V(s, 0).ab[0] != 0
  {
    hide V, Owned, TreeOk, FileShape, Slots, OpenOk, CountLive;
    assert DirOk(V(s, 0));
    assert Live(Slots(V(s, 0))[0]);
    assert HasLive(Slots(V(s, 0)), 0);
  }

  lemma LetteredNext(t: seq<DirEntry>, k: nat, c: nat, e: DirEntry)
    requires Lettered(t, k) && k < 19 && c < 2940 && !Live(t[c]) && (forall x :: 0 <= x < c ==> Live(t[x]))
    requires Live(e) && e.name == Letter(k)
    ensures Lettered(t[c := e], k + 1)
  {
    assert !Live(t[k + 2]);
    assert c == k + 2;
  }

  lemma FilledFromParts(s: Fs, k: nat)
    requires |s.ib| == 4096 && forall j :: 0 <= j < 4096 ==> s.ib[j] == (j <= k)
    requires s.files == seq(32, _ => Closed)
    requires Inv(s) && 0 in s.dirs && Lettered(Slots(V(s, 0)), k) && Leaked(s) == {}
    ensures Filled(s, k, |FreeBlocks(s)|)
  {
    hide V, Inv, Slots, FreeBlocks, Leaked, Lettered;
  }

  lemma FilledParts(s: Fs, k: nat, room: nat)
    requires Filled(s, k, room)
    ensures Inv(s) && 0 in s.dirs && Leaked(s) == {} && |FreeBlocks(s)| == room
    ensures |s.ib| == 4096 && (forall j :: 0 <= j < 4096 ==> s.ib[j] == (j <= k)) && s.files == seq(32, _ => Closed)
  {
    hide V, Inv, Slots, FreeBlocks, Leaked, Lettered;
  }

  lemma MadeFields(s: Fs, s1: Fs, i: nat, c: nat, g: nat, e: DirEntry)
    requires FileMade(s, s1, 0, i, c, g, e, 6)
    ensures i < |s.ib| && s1.ib == s.ib[i := true] && s1.dirs == s.dirs && Leaked(s1) == Leaked(s)
    ensures g < |s.files| && s1.files == s.files[g := Open(i, 0, 6)]
  {
    hide V, Leaked, Added, Blocks;
  }

  lemma OnlyFields(s: Fs, s': Fs, i: nat)
    requires OnlyFile(s, s', i)
    ensures s'.ib == s.ib && s'.dirs == s.dirs && Leaked(s') == Leaked(s)
  {
    hide V, Leaked;
  }

  lemma FilledView(s: Fs, s1: Fs, s2: Fs, s3: Fs, k: nat, room: nat, i: nat, c: nat, g: nat, e: DirEntry)
    requires Filled(s, k, room) && k < 19 && FileMade(s, s1, 0, i, c, g, e, 6) && e.name == Letter(k)
    requires OnlyFile(s1, s2, i) && OnlyFile(s2, s3, i)
    ensures Lettered(Slots(V(s3, 0)), k + 1) && s3.dirs == s.dirs
  {
    hide V, Core, OpenOk, Slots, FreeBlocks, Leaked, Lettered, Blocks;
    DirsAreInodes(s, 0);
    assert V(s3, 0) == V(s1, 0);
    AddedSlots(V(s, 0), V(s1, 0), c, e);
    AddedLowest(V(s, 0), V(s1, 0), c, e);
    LetteredNext(Slots(V(s, 0)), k, c, e);
  }

  lemma AddedLowest(v: View, v': View, c: nat, e: DirEntry)
    requires Added(v, v', c, e)
    ensures c < 2940 && forall x :: 0 <= x < c ==> Live(Slots(v)[x])
  {
    hide Slots;
  }

  /** Creates the next file, writes the bytes to it unless there are none, and closes it. */
  method AddLetter(part: Partition, k: nat, bytes: seq<byte>, ghost room: nat)
    requires Filled(part.S(), k, room) && k < 19 && LowestFreeFd(part.fds, 3)
    requires bytes == [] || (|bytes| < MAX_SIZE && NewFileNeed(|bytes|) <= room)
    modifies part
    ensures part.fds == old(part.fds)
    ensures Filled(part.S(), k + 1, if bytes == [] then room else room - NewFileNeed(|bytes|))
  {
    hide V, Inv, Slots, FreeBlocks, Leaked, FileMade, Lettered, Creatable, EntryNeed, OnlyFile, SlotClosed, Extended,
         TotalNeed,
         NewFileNeed, Blocks, Storable, Letter, Filled, FirstClear, CreateStep;
    ghost var s := part.S();
    FilledParts(s, k, room);
    NextLetter(s, k, room);
    assert s.files[3].Closed?;
    ghost var g, i, c;
    var fd;
    fd, g, i, c := part.Create(0, Letter(k), 6);
    ghost var s1 := part.S();
    ghost var e := DirEntry(Letter(k), i, FT_REGULAR);
    MadeFacts(s, s1, 0, i, c, g, e, 6);
    NewFileTakes(V(s1, i), |bytes|);
    ExtendStart(s1, 3);
    var bufs := if bytes == [] then [] else [bytes];
    ConcatOne(bytes);
    var ok := WriteAll(part, 3, bufs);
    ghost var s2 := part.S();
    FilesThere(s2);
    ExtendedOnly(s1, s2, 3, i, Concat(bufs));
    part.SysClose(fd);
    ghost var s3 := part.S();
    ClosedOnly(s2, s3, 3, i);
    ClosedFiles(s2, s3, 3);
    MadeFields(s, s1, i, c, 3, e);
    OnlyFields(s1, s2, i);
    OnlyFields(s2, s3, i);
    FilledView(s, s1, s2, s3, k, room, i, c, 3, e);
    assert s3.files == s.files;
    assert |FreeBlocks(s3)| == if bytes == [] then room else room - NewFileNeed(|bytes|);
    FilledFromParts(s3, k + 1);
  }

  lemma ConcatOne(bytes: seq<byte>)
    ensures Concat([bytes]) == bytes && Concat([]) == []
  {
    assert [bytes][..0] == [];
  }

  lemma ClosedFiles(s: Fs, s': Fs, fd: nat)
    requires SlotClosed(s, s', fd)
    ensures s'.files == s.files[fd := Closed]
  {}

  /** A partition of eight data blocks just formatted has seven free ones. */
  lemma FirstFilled(ds: nat, disk: seq<Sector>, bb: seq<bool>, ib: seq<bool>, itab: seq<Inode>)
    requires Formatted(ds, disk, bb, ib, itab) && |disk| == ds + 8
    ensures Filled(FirstState(ds, disk, bb, ib, itab), 0, 7)
  {
    hide V, Inv, Slots, Leaked, DotsSector, NewDirInode;
    FirstInv(ds, disk, bb, ib, itab);
    var s := FirstState(ds, disk, bb, ib, itab);
    forall b: nat
      ensures Bit(s, b) <==> ds <= b < ds + |bb| && (b == ds || b >= |disk|)
    {}
    assert FreeBlocks(s) == {ds + 1, ds + 2, ds + 3, ds + 4, ds + 5, ds + 6, ds + 7};
  }

  /** With its first block full the root directory needs a block for its next entry. */
  lemma FullRoot(s: Fs, room: nat, name: seq<byte>)
    requires Filled(s, 19, room) && |name| > 1 && name != DOTDOT
    ensures !NameIn(s, 0, name) && EntryNeed(V(s, 0)) == 1 && FirstClear(s.ib) == 20
  {
    hide V, Inv, Slots, FreeBlocks, Leaked, FirstDead;
    var t := Slots(V(s, 0));
    DeadIsFirst(t, 21);
    SecondBlockMissing(s);
    assert !s.ib[20];
  }

  lemma SecondBlockMissing(s: Fs)
    requires Inv(s) && 0 in s.dirs && forall x :: 21 <= x < 2940 ==> !Live(Slots(V(s, 0))[x])
    ensures V(s, 0).ab[1] == 0
  {
    hide V, Owned, TreeOk, FileShape, Slots, OpenOk, CountLive;
    assert DirOk(V(s, 0));
    assert !HasLive(Slots(V(s, 0)), 1);
  }

  /** From a formatted partition of eight data blocks: 19 files in the root directory, 2560 bytes in the
      last of them, and a mkdir, whose block is marked and belongs to no one afterwards. */
  method MkdirLoses(part: Partition, ghost ds: nat, ghost disk: seq<Sector>, ghost bb: seq<bool>, ghost ib: seq<bool>,
                    ghost itab: seq<Inode>)
    returns (r: int, ghost lost: set<nat>)
    requires Formatted(ds, disk, bb, ib, itab) && |disk| == ds + 8
    requires part.S() == FirstState(ds, disk, bb, ib, itab) && part.fds == [0, 1, 2, -1, -1, -1, -1, -1]
    modifies part
    ensures r == -1 && Inv(part.S()) && |lost| == 1 && Leaked(part.S()) == lost
  {
    hide V, Inv, Slots, FreeBlocks, Leaked, Filled, Formatted, FirstState, EntryNeed, MkdirFailed, FirstClear,
         DirMade, NameIn, MkdirStep, MkdirLost;
    FirstFilled(ds, disk, bb, ib, itab);
    var k := 0;
    while k < 18
      invariant k <= 18 && Filled(part.S(), k, 7) && part.fds == [0, 1, 2, -1, -1, -1, -1, -1]
    {
      AddLetter(part, k, [], 7);
      k := k + 1;
    }
    AddLetter(part, 18, seq(2560, _ => 0), 7);
    var name: seq<byte> := [100, 105, 114];
    ghost var s := part.S();
    FilledParts(s, 19, 1);
    FullRoot(s, 1, name);
    ghost var i, c;
    r, i, c, lost := part.MakeDir(0, name);
    LostOne(s, part.S(), lost);
  }

  lemma LostOne(s: Fs, s': Fs, lost: set<nat>)
    requires MkdirFailed(s, s', lost) && lost != {} && Leaked(s) == {}
    ensures |lost| == 1 && Leaked(s') == lost
  {
    hide V, Leaked;
  }
}
