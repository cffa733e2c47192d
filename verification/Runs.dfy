/** Runs of system calls on a mounted partition, from its first state on. */
module Runs {
  import opened Codec
  import opened Store
  import opened Directory
  import opened FileMoves
  import opened Consistency
  import opened Bitmap
  import opened Partitions
  import opened Steps
  import opened Tree
  import opened Paths
  import opened Lookup
  import opened Format

  /** A call with the path of the directory it works in and a last component, with a slot of file_table,
      or, for CloseDir, with the directory that a handle leads to. */
  datatype Call = Create(dir: seq<byte>, name: Name, flag: nat) | Mkdir(dir: seq<byte>, name: Name)
                | Unlink(dir: seq<byte>, name: Name) | Rmdir(dir: seq<byte>, name: Name)
                | OpenFile(dir: seq<byte>, name: Name, flag: nat) | OpenDir(dir: seq<byte>) | CloseDir(d: nat)
                | Write(fd: nat, buf: seq<byte>) | Read(fd: nat, count: nat) | Close(fd: nat)

  /** What every call keeps: the invariant, and names without slashes. */
  ghost predicate Good(s: Fs) {
    Inv(s) && Unslashed(s)
  }

  // ---- paths ----

  /** search_file reads an entry for such a path. */
  predicate PathOk(path: seq<byte>) {
    path != [] && path[0] == SLASH && (Components(path) != [] || path == [SLASH])
  }

  /** The directory that a path leads to, or -1. */
  ghost function DirOf(s: Fs, path: seq<byte>): int {
    var w := Walk(Tables(s), 0, 0, Components(path));
    if w.Found? && w.ftype == FT_DIRECTORY then w.ino else -1
  }

  /** search_file for a directory, and dir_close on what it leaves open. */
  method FindDir(part: Partition, path: seq<byte>) returns (p: int)
    requires Inv(part.S()) && PathOk(path)
    modifies part`mem
    ensures part.S() == old(part.S()) && p == DirOf(part.S(), path) && (p != -1 ==> p in part.dirs)
  {
    hide V, Inv, Rooted, Components, Walk, Find, Resolve, OpenedMem, ClosedMem, Tables;
    ghost var s := part.S();
    ZeroOpen(s);
    InvRooted(s);
    ComponentsClean(path);
    var r, parent, isRoot, ftype := SearchFile(part, path);
    StandingSame(s, part.S(), parent, isRoot);
    if !isRoot {
      part.InodeClose(parent);
    }
    assert part.mem == s.mem;
    WalkIsDir(s, Components(path));
    p := if ftype == FT_DIRECTORY then r else -1;
  }

  lemma WalkIsDir(s: Fs, cs: seq<Name>)
    requires Inv(s) && Clean(cs)
    ensures var w := Walk(Tables(s), 0, 0, cs);
            w.Found? && w.ftype == FT_DIRECTORY ==> w.ino in s.dirs
  {
    hide Inv, Find, V;
    InvRooted(s);
    ZeroOpen(s);
    WalkEndsInDir(Tables(s), s.nodes, s.par, 0, 0, cs);
  }

  lemma {:induction false} WalkEndsInDir(t: map<nat, seq<DirEntry>>, nodes: set<nat>, par: map<nat, (nat, nat)>,
                                         d: nat, up: nat,
                                         cs: seq<Name>)
    requires Rooted(t, nodes, par) && d in t && Clean(cs)
    ensures var w := Walk(t, d, up, cs);
            w.Found? && w.ftype == FT_DIRECTORY ==> w.ino in t
    decreases |cs|
  {
    hide Rooted, Find;
    if cs != [] && Find(t[d], cs[0]).Some? {
      var e := Find(t[d], cs[0]).value;
      assert CleanName(cs[0]);
      FoundNode(t, nodes, par, d, cs[0], e);
      if e.ftype == FT_DIRECTORY {
        WalkEndsInDir(t, nodes, par, e.ino, d, cs[1..]);
      }
    }
  }

  /** The names that a call may bring in: what path_parse delivers, and fits an entry. */
  predicate NewName(name: Name) {
    CleanName(name) && Storable(DirEntry(name, 0, FT_REGULAR))
  }

  // ---- calls that end a run ----

  /** A new file or directory in p that the code has no place for: a name beyond 15 bytes, or a number
      beyond the low byte that inode_sync goes by. */
  predicate TooBig(s: Fs, name: Name) {
    !NewName(name) || FirstClear(s.ib) >= 256
  }

  /** sys_rmdir of "." in an empty directory, or of an empty directory on the open list. */
  ghost predicate BreaksTree(s: Fs, p: nat, name: Name) {
    exists x :: 0 <= x < 2940 && EmptyChild(s, p, x, name) && (name == DOT || Slots(V(s, p))[x].ino in s.mem)
  }

  /** The code asserts that sys_rmdir does not find the root. */
  ghost predicate FindsRoot(s: Fs, p: nat, name: Name) {
    (name == DOT && p == 0) || (name == DOTDOT && ParentOf(s.par, p) == 0)
  }

  /** sys_open of a file that is open for writing already, for writing. */
  ghost predicate Refuses(s: Fs, p: nat, name: Name, flag: nat) {
    && HasFreeSlot(s.files)
    && exists x :: 0 <= x < 2940 && NamesFile(s, p, x, name) && Denied(s.mem, Slots(V(s, p))[x].ino, flag)
  }

  /** sys_write that finds too few blocks, or to a slot with nothing in it, or up to the size that the
      code's assertion excludes. */
  ghost predicate NoRoom(s: Fs, fd: nat, buf: seq<byte>) {
    fd >= 32 || fd >= |s.files| || !s.files[fd].Open?
    || (Writes(s.files[fd].flag)
        && var v := V(s, s.files[fd].ino);
           v.size + |buf| == MAX_SIZE || (v.size + |buf| < MAX_SIZE && |FreeBlocks(s)| < TotalNeed(v, |buf|)))
  }

  /** sys_read from a position that a write of no bytes to an empty file left, or up to the block that the
      code's assertion excludes, or of a slot with nothing in it. */
  predicate NoRead(s: Fs, fd: nat, count: nat) {
    fd >= 32 || fd >= |s.files| || !s.files[fd].Open?
    || var size := V(s, s.files[fd].ino).size;
       s.files[fd].pos > size || (Blk(s.files[fd].pos + count) >= 139 && Blk(size) >= 139)
  }

  /** The calls after which nothing is promised: the run ends with the first of them. */
  ghost predicate Stops(s: Fs, call: Call) {
    match call
    case Create(dir, name, _) => !PathOk(dir) || TooBig(s, name)
    case Mkdir(dir, name) => !PathOk(dir) || TooBig(s, name)
    case Unlink(dir, name) => !PathOk(dir) || !CleanName(name)
    case Rmdir(dir, name) =>
      !PathOk(dir) || !CleanName(name)
      || (DirOf(s, dir) != -1 && (FindsRoot(s, DirOf(s, dir), name) || BreaksTree(s, DirOf(s, dir), name)))
    case OpenFile(dir, name, flag) =>
      !PathOk(dir) || !CleanName(name) || (DirOf(s, dir) != -1 && Refuses(s, DirOf(s, dir), name, flag))
    case OpenDir(dir) => !PathOk(dir)
    case CloseDir(d) => d !in s.dirs || d !in s.mem || (d == 0 && s.mem[0].cnt < 2)
    case Write(fd, buf) => NoRoom(s, fd, buf)
    case Read(fd, count) => NoRead(s, fd, count)
    case Close(fd) => fd >= 32 || fd >= |s.files| || !s.files[fd].Open?
  }

  // ---- what the other calls do ----

  ghost predicate CreateDone(s: Fs, s': Fs, p: nat, name: Name, flag: nat) {
    if Creatable(s, p, name) then
      exists i: nat, c: nat, g: nat :: i == FirstClear(s.ib) && LowestFreeSlot(s.files, g)
        && CreateStep(s, s', p, i, c, g, DirEntry(name, i, FT_REGULAR), flag)
    else s' == s
  }

  ghost predicate MkdirDone(s: Fs, s': Fs, p: nat, name: Name) {
    if NameIn(s, p, name) || FirstClear(s.ib) == -1 || |FreeBlocks(s)| == 0 then s' == s
    else if |FreeBlocks(s)| <= EntryNeed(V(s, p)) then exists lost :: lost != {} && MkdirLost(s, s', p, lost)
    else exists i: nat, c: nat :: i == FirstClear(s.ib) && MkdirStep(s, s', p, i, c, DirEntry(name, i, FT_DIRECTORY))
  }

  ghost predicate UnlinkDone(s: Fs, s': Fs, p: nat, name: Name) {
    if CanUnlink(s, p, name) then
      exists c :: 0 <= c < 2940 && Removable(s, p, c, name) && RemoveStep(s, s', p, Slots(V(s, p))[c].ino, c)
    else s' == s
  }

  ghost predicate RmdirDone(s: Fs, s': Fs, p: nat, name: Name) {
    if exists x :: 0 <= x < 2940 && EmptyChild(s, p, x, name) then
      exists c :: 2 <= c < 2940 && EmptyChild(s, p, c, name) && RemoveStep(s, s', p, Slots(V(s, p))[c].ino, c)
    else s' == s
  }

  ghost predicate OpenDone(s: Fs, s': Fs, p: nat, name: Name, flag: nat) {
    if exists x :: 0 <= x < 2940 && NamesFile(s, p, x, name) then
      && p < |s.itab|
      && var s1 := s.(mem := StandingIn(s, p));
         if HasFreeSlot(s.files) then
           exists x, g: nat ::
             && 0 <= x < 2940 && NamesFile(s, p, x, name) && Slots(V(s, p))[x].ino < |s.itab|
             && LowestFreeSlot(s.files, g)
             && s' == SlotOpened(s1, Slots(V(s, p))[x].ino, g, flag)
         else s' == s1
    else s' == s
  }

  /** What a call does to the state, told without its code. */
  ghost predicate Step(s: Fs, s': Fs, call: Call) {
    match call
    case Create(dir, name, flag) =>
      if DirOf(s, dir) == -1 then s' == s else CreateDone(s, s', DirOf(s, dir), name, flag)
    case Mkdir(dir, name) => if DirOf(s, dir) == -1 then s' == s else MkdirDone(s, s', DirOf(s, dir), name)
    case Unlink(dir, name) => if DirOf(s, dir) == -1 then s' == s else UnlinkDone(s, s', DirOf(s, dir), name)
    case Rmdir(dir, name) => if DirOf(s, dir) == -1 then s' == s else RmdirDone(s, s', DirOf(s, dir), name)
    case OpenFile(dir, name, flag) =>
      if DirOf(s, dir) == -1 then s' == s else OpenDone(s, s', DirOf(s, dir), name, flag)
    case OpenDir(dir) =>
      if DirOf(s, dir) == -1 || dir == [SLASH] then s' == s
      else DirOf(s, dir) < |s.itab| && s' == s.(mem := OpenedMem(s.mem, s.itab, DirOf(s, dir)))
    case CloseDir(d) => d in s.mem && s.mem[d].cnt >= 1 && s' == s.(mem := ClosedMem(s.mem, d))
    case Write(fd, buf) =>
      fd < |s.files| && s.files[fd].Open?
      && if !Writes(s.files[fd].flag) || V(s, s.files[fd].ino).size + |buf| > MAX_SIZE then s' == s
         else Wrote(s, s', fd, buf)
    case Read(fd, count) =>
      && fd < |s.files| && s.files[fd].Open?
      && var size, pos := V(s, s.files[fd].ino).size, s.files[fd].pos;
         s' == Positioned(s, fd, if pos + count > size then size else pos + count)
    case Close(fd) => SlotClosed(s, s', fd)
  }

  // ---- every step keeps the state good ----

  lemma DirThere(s: Fs, path: seq<byte>)
    requires Inv(s) && DirOf(s, path) != -1
    ensures DirOf(s, path) in s.dirs
  {
    hide Inv, Walk, Tables;
    ComponentsClean(path);
    WalkIsDir(s, Components(path));
  }

  lemma SameDirsUnslashed(s: Fs, s': Fs)
    requires Unslashed(s) && s'.dirs == s.dirs && forall d :: d in s.dirs ==> V(s', d) == V(s, d)
    ensures Unslashed(s')
  {
    hide V, Slots;
  }

  lemma CreateGood(s: Fs, s': Fs, p: nat, name: Name, flag: nat)
    requires Good(s) && p in s.dirs && NewName(name) && CreateDone(s, s', p, name, flag)
    ensures Good(s')
  {
    hide V, Inv, Unslashed, FileMade, CreateStep, FirstClear, FreeBlocks, EntryNeed, Slots;
    if Creatable(s, p, name) {
      var i: nat, c: nat, g: nat :| i == FirstClear(s.ib) && LowestFreeSlot(s.files, g)
        && CreateStep(s, s', p, i, c, g, DirEntry(name, i, FT_REGULAR), flag);
      CreateKeeps(s, s', p, i, c, g, DirEntry(name, i, FT_REGULAR), flag);
      UnslashedKept(s, s', p, i, c, g, DirEntry(name, i, FT_REGULAR), flag);
    }
  }

  lemma MkdirGood(s: Fs, s': Fs, p: nat, name: Name)
    requires Good(s) && p in s.dirs && NewName(name) && MkdirDone(s, s', p, name)
    ensures Good(s')
  {
    hide V, Inv, Unslashed, DirMade, MkdirStep, MkdirLost, MkdirFailed, FirstClear, FreeBlocks, EntryNeed, NameIn;
    if NameIn(s, p, name) || FirstClear(s.ib) == -1 || |FreeBlocks(s)| == 0 {
    } else if |FreeBlocks(s)| <= EntryNeed(V(s, p)) {
      var lost :| lost != {} && MkdirLost(s, s', p, lost);
      LostKeeps(s, s', p, lost);
      FailedSame(s, s', lost);
      SameDirsUnslashed(s, s');
    } else {
      var i: nat, c: nat :| i == FirstClear(s.ib) && MkdirStep(s, s', p, i, c, DirEntry(name, i, FT_DIRECTORY));
      MkdirKeeps(s, s', p, i, c, DirEntry(name, i, FT_DIRECTORY));
      UnslashedKept(s, s', p, i, c, 0, DirEntry(name, i, FT_DIRECTORY), 0);
    }
  }

  lemma FailedSame(s: Fs, s': Fs, lost: set<nat>)
    requires Inv(s) && MkdirFailed(s, s', lost)
    ensures s'.dirs == s.dirs && forall d :: d in s.dirs ==> V(s', d) == V(s, d)
  {
    hide V, Inv, Leaked;
    DirsAreNodes(s);
  }

  lemma UnlinkGood(s: Fs, s': Fs, p: nat, name: Name)
    requires Good(s) && p in s.dirs && CleanName(name) && UnlinkDone(s, s', p, name)
    ensures Good(s')
  {
    hide V, Inv, Core, OpenOk, Unslashed, NodeGone, RemoveStep, Slots;
    if CanUnlink(s, p, name) {
      var c :| 0 <= c < 2940 && Removable(s, p, c, name) && RemoveStep(s, s', p, Slots(V(s, p))[c].ino, c);
      var i := Slots(V(s, p))[c].ino;
      InvFacts(s);
      FoundSlot(s, p, c);
      NotHeld(s, i);
      RemoveKeeps(s, s', p, i, c);
      UnslashedKept(s, s', p, i, c, 0, DEAD, 0);
    }
  }

  lemma RmdirGood(s: Fs, s': Fs, p: nat, name: Name)
    requires Good(s) && p in s.dirs && CleanName(name) && !BreaksTree(s, p, name) && RmdirDone(s, s', p, name)
    ensures Good(s')
  {
    hide V, Inv, Core, Unslashed, NodeGone, RemoveStep, Slots, Live;
    if exists x :: 0 <= x < 2940 && EmptyChild(s, p, x, name) {
      var c :| 2 <= c < 2940 && EmptyChild(s, p, c, name) && RemoveStep(s, s', p, Slots(V(s, p))[c].ino, c);
      var i := Slots(V(s, p))[c].ino;
      DirsAreNodes(s);
      RemoveKeeps(s, s', p, i, c);
      UnslashedKept(s, s', p, i, c, 0, DEAD, 0);
    }
  }

  lemma HandleGood(s: Fs, s': Fs, d: nat)
    requires Good(s) && d in s.dirs && HandleMoved(s, s', d)
    ensures Good(s')
  {
    hide V, Inv, Unslashed, HandleMoved, Leaked;
    InvHandle(s, s', d);
    DirsAreNodes(s);
    HandleDirs(s, s', d);
    SameDirsUnslashed(s, s');
  }

  lemma HandleDirs(s: Fs, s': Fs, d: nat)
    requires HandleMoved(s, s', d)
    ensures s'.dirs == s.dirs
  {}

  lemma OpenGood(s: Fs, s': Fs, p: nat, name: Name, flag: nat)
    requires Good(s) && p in s.dirs && CleanName(name) && OpenDone(s, s', p, name, flag)
    ensures Good(s')
  {
    hide V, Inv, Core, Unslashed, Slots, OpenedMem, ClosedMem, SlotOpened, Leaked, OpenOk;
    if exists x :: 0 <= x < 2940 && NamesFile(s, p, x, name) {
      var s1 := s.(mem := StandingIn(s, p));
      if p == 0 {
        assert s1 == s;
      } else {
        HandleGood(s, s1, p);
      }
      if HasFreeSlot(s.files) {
        var x, g: nat :|
            0 <= x < 2940 && NamesFile(s, p, x, name) && Slots(V(s, p))[x].ino < |s.itab| && LowestFreeSlot(s.files, g)
          && s' == SlotOpened(s1, Slots(V(s, p))[x].ino, g, flag);
        InvFacts(s);
        FoundSlot(s, p, x);
        OpenedGood(s1, Slots(V(s, p))[x].ino, g, flag);
      }
    }
  }

  lemma OpenedGood(s: Fs, i: nat, g: nat, flag: nat)
    requires Good(s) && i in s.nodes && i !in s.dirs && g < |s.files| && s.files[g].Closed?
    ensures i < |s.itab| && Good(SlotOpened(s, i, g, flag))
  {
    hide V, Inv, Unslashed, OpenedMem, Leaked;
    InvSlotOpened(s, i, g, flag);
    DirsAreNodes(s);
    SameDirsUnslashed(s, SlotOpened(s, i, g, flag));
  }

  lemma OnlyFileDirs(s: Fs, s': Fs, i: nat)
    requires Good(s) && OnlyFile(s, s', i) && i !in s.dirs
    ensures Unslashed(s')
  {
    hide V, Inv, Leaked, Unslashed;
    DirsAreNodes(s);
    SameDirsUnslashed(s, s');
  }

  lemma WriteGood(s: Fs, s': Fs, fd: nat, buf: seq<byte>)
    requires Good(s) && fd < 32 && Wrote(s, s', fd, buf)
    ensures Good(s')
  {
    hide V, Inv, Unslashed, Leaked, FileGrew, OnlyFile;
    InvWrote(s, s', fd, buf);
    WroteOnly(s, s', fd, buf);
    OpenFileFacts(s, fd);
    OnlyFileDirs(s, s', s.files[fd].ino);
  }

  lemma ReadGood(s: Fs, s': Fs, fd: nat, count: nat)
    requires Good(s) && !NoRead(s, fd, count) && Step(s, s', Read(fd, count))
    ensures Good(s')
  {
    hide V, Inv, Unslashed, Leaked;
    OpenFileFacts(s, fd);
    InvMoved(s, s', fd, s'.files[fd].pos);
    SameDirsUnslashed(s, s');
  }

  lemma CloseGood(s: Fs, s': Fs, fd: nat)
    requires Good(s) && fd < 32 && SlotClosed(s, s', fd)
    ensures Good(s')
  {
    hide V, Inv, Unslashed, Leaked, OnlyFile;
    InvSlotClosed(s, s', fd);
    ClosedOnly(s, s', fd, s.files[fd].ino);
    OpenFileFacts(s, fd);
    OnlyFileDirs(s, s', s.files[fd].ino);
  }

  /** Every call that does not stop the run keeps the state good. */
  lemma StepGood(s: Fs, s': Fs, call: Call)
    requires Good(s) && !Stops(s, call) && Step(s, s', call)
    ensures Good(s')
  {
    hide V, Inv, Unslashed, CreateDone, MkdirDone, UnlinkDone, RmdirDone, OpenDone, BreaksTree, Refuses, FindsRoot,
         NoRoom, NoRead, DirOf, SlotClosed,
         Wrote, OpenedMem, ClosedMem, Components, TotalNeed, FreeBlocks;
    match call {
      case Create(dir, name, flag) =>
        if DirOf(s, dir) != -1 {
          DirThere(s, dir);
          CreateGood(s, s', DirOf(s, dir), name, flag);
        }
      case Mkdir(dir, name) =>
        if DirOf(s, dir) != -1 {
          DirThere(s, dir);
          MkdirGood(s, s', DirOf(s, dir), name);
        }
      case Unlink(dir, name) =>
        if DirOf(s, dir) != -1 {
          DirThere(s, dir);
          UnlinkGood(s, s', DirOf(s, dir), name);
        }
      case Rmdir(dir, name) =>
        if DirOf(s, dir) != -1 {
          DirThere(s, dir);
          RmdirGood(s, s', DirOf(s, dir), name);
        }
      case OpenFile(dir, name, flag) =>
        if DirOf(s, dir) != -1 {
          DirThere(s, dir);
          OpenGood(s, s', DirOf(s, dir), name, flag);
        }
      case OpenDir(dir) =>
        if DirOf(s, dir) != -1 && dir != [SLASH] {
          DirThere(s, dir);
          HandleGood(s, s', DirOf(s, dir));
        }
      case CloseDir(d) =>
        CanOpen(s, d);
        HandleGood(s, s', d);
      case Write(fd, buf) =>
        SlotThere(s, fd, buf);
        if Writes(s.files[fd].flag) && V(s, s.files[fd].ino).size + |buf| <= MAX_SIZE {
          WriteGood(s, s', fd, buf);
        }
      case Read(fd, count) => ReadGood(s, s', fd, count);
      case Close(fd) => CloseGood(s, s', fd);
    }
  }

  lemma SlotThere(s: Fs, fd: nat, buf: seq<byte>)
    requires !NoRoom(s, fd, buf)
    ensures fd < 32 && fd < |s.files| && s.files[fd].Open?
  {}

  /** A run: each state but the first is what a call made of the one before it. */
  ghost predicate IsRun(trace: seq<Fs>, calls: seq<Call>) {
    && 0 < |trace| <= |calls| + 1
    && forall k :: 0 <= k < |trace| - 1 ==> !Stops(trace[k], calls[k]) && Step(trace[k], trace[k + 1], calls[k])
  }

  /** Over every run: at each point no block has two owners, every owned block is a marked data block, the
      directories and files have their shapes, and the tree is a tree. */
  lemma {:induction false} RunGood(trace: seq<Fs>, calls: seq<Call>, k: nat)
    requires IsRun(trace, calls) && Good(trace[0]) && k < |trace|
    ensures Good(trace[k])
  {
    hide Good, Stops, Step;
    if k > 0 {
      RunGood(trace, calls, k - 1);
      StepGood(trace[k - 1], trace[k], calls[k - 1]);
    }
  }

  // ---- the calls themselves ----

  method DoCreate(part: Partition, p: nat, name: Name, flag: nat)
    requires Inv(part.S()) && p in part.dirs && !TooBig(part.S(), name)
    modifies part
    ensures CreateDone(old(part.S()), part.S(), p, name, flag)
  {
    hide V, Inv, FileMade, CreateStep, Creatable, FirstClear, FreeBlocks, EntryNeed;
    ghost var g, i, c;
    var fd;
    fd, g, i, c := part.Create(p, name, flag);
  }

  method DoMkdir(part: Partition, p: nat, name: Name)
    requires Inv(part.S()) && p in part.dirs && !TooBig(part.S(), name)
    modifies part
    ensures MkdirDone(old(part.S()), part.S(), p, name)
  {
    hide V, Inv, DirMade, MkdirStep, MkdirLost, MkdirFailed, NameIn, FirstClear, FreeBlocks, EntryNeed;
    ghost var i, c, lost;
    var r;
    r, i, c, lost := part.MakeDir(p, name);
  }

  method DoUnlink(part: Partition, p: nat, name: Name)
    requires Inv(part.S()) && p in part.dirs && CleanName(name)
    modifies part
    ensures UnlinkDone(old(part.S()), part.S(), p, name)
  {
    hide V, Inv, NodeGone, RemoveStep, Slots, CanUnlink;
    ghost var s := part.S();
    ghost var i, c;
    var r;
    r, i, c := part.Unlink(p, name);
    if r == 0 {
      GoneSlot(s, part.S(), p, i, c);
    }
  }

  lemma GoneSlot(s: Fs, s': Fs, p: nat, i: nat, c: nat)
    requires NodeGone(s, s', p, i, c)
    ensures 2 <= c < 2940 && Slots(V(s, p))[c].ino == i
  {
    hide V, Slots, Leaked;
  }

  method DoRmdir(part: Partition, p: nat, name: Name) returns (ok: bool)
    requires Inv(part.S()) && p in part.dirs && CleanName(name) && !FindsRoot(part.S(), p, name)
    modifies part
    ensures ok <==> !BreaksTree(old(part.S()), p, name)
    ensures ok ==> RmdirDone(old(part.S()), part.S(), p, name)
  {
    hide V, Inv, Core, NodeGone, RemoveStep, Slots, SelfGone, Dangling, Live;
    ghost var s := part.S();
    var r, i;
    ghost var c;
    r, i, c := part.RemoveDir(p, name);
    ok := r == -1 || (name != DOT && i !in part.mem);
    if r == 0 {
      OnlyOneNamed(s, p, c, name);
      if name != DOT {
        GoneSlot(s, part.S(), p, i, c);
        GoneListed(s, part.S(), p, i, c);
      }
    }
  }

  /** After a removal the inode is on the open list exactly when it was before. */
  lemma GoneListed(s: Fs, s': Fs, p: nat, i: nat, c: nat)
    requires NodeGone(s, s', p, i, c) && RemoveStep(s, s', p, i, c) && (Inv(s') <==> i !in s.mem)
    ensures i in s.mem <==> i in s'.mem
  {
    hide V, Slots, Leaked, Core, Opens, NodeRemoved;
    if i in s.mem {
      var s1, m, s2 :|
          DirOpened(s, s1, p) && NodeRemoved(s1, m, s2, p, i, c) && s2.mem == m.mem && DirClosed(s2, s', p);
      RemovedKeys(s1, m, s2, p, i, c);
    }
  }

  lemma RemovedKeys(s: Fs, m: Fs, s': Fs, p: nat, i: nat, c: nat)
    requires NodeRemoved(s, m, s', p, i, c) && s'.mem == m.mem
    ensures s'.mem.Keys == s.mem.Keys
  {
    hide V, Owned, Removed, Leaked, Released;
  }

  method DoOpen(part: Partition, p: nat, name: Name, flag: nat) returns (ok: bool)
    requires Inv(part.S()) && p in part.dirs && CleanName(name)
    modifies part
    ensures ok <==> !Refuses(old(part.S()), p, name, flag)
    ensures ok ==> OpenDone(old(part.S()), part.S(), p, name, flag)
  {
    hide V, Inv, Slots, OpenedMem;
    ghost var s := part.S();
    var fd, g;
    ghost var i, c;
    fd, g, i, c := part.OpenFound(p, name, flag);
    ok := g == -1 || part.files[g].Open?;
    if g != -1 {
      OnlyOneNamed(s, p, c, name);
      assert !Denied(s.mem, i, flag) ==> part.files[g].Open?;
    }
  }

  /** An inode on the open list is a directory exactly when no slot holds it. */
  lemma HeldIsFile(s: Fs, d: nat)
    requires Inv(s) && d in s.mem
    ensures d in s.dirs <==> !exists k :: 0 <= k < |s.files| && s.files[k].Open? && s.files[k].ino == d
  {
    hide Core;
    if d !in s.dirs && !exists k :: 0 <= k < |s.files| && s.files[k].Open? && s.files[k].ino == d {
      OpensNone(s.files, d);
    }
  }

  method DoCloseDir(part: Partition, d: nat) returns (ok: bool)
    requires Inv(part.S())
    modifies part
    ensures ok <==> !Stops(old(part.S()), CloseDir(d))
    ensures ok ==> Step(old(part.S()), part.S(), CloseDir(d))
  {
    hide V, Inv;
    if d !in part.mem || (d == 0 && part.mem[d].cnt < 2) {
      return false;
    }
    HeldIsFile(part.S(), d);
    var used := part.InUse(d);
    if used {
      return false;
    }
    CanOpen(part.S(), d);
    part.CloseDir(d);
    ok := true;
  }

  method DoWrite(part: Partition, fd: nat, buf: seq<byte>) returns (ok: bool)
    requires Inv(part.S())
    modifies part
    ensures ok <==> !Stops(old(part.S()), Write(fd, buf))
    ensures ok ==> Step(old(part.S()), part.S(), Write(fd, buf))
  {
    hide V, Inv, Wrote, FreeBlocks, TotalNeed, Leaked;
    if fd >= 32 || fd >= |part.files| || part.files[fd].Closed? {
      return false;
    }
    OpenFileFacts(part.S(), fd);
    var size := part.mem[part.files[fd].ino].node.size;
    if !Writes(part.files[fd].flag) {
      return true;
    }
    if size + |buf| == MAX_SIZE {
      return false;
    }
    var r := part.Write(fd, buf);
    ok := size + |buf| > MAX_SIZE || r != -1;
  }

  method DoRead(part: Partition, fd: nat, count: nat) returns (ok: bool)
    requires Inv(part.S())
    modifies part
    ensures ok <==> !Stops(old(part.S()), Read(fd, count))
    ensures ok ==> Step(old(part.S()), part.S(), Read(fd, count))
  {
    hide V, Inv, Blk, Content;
    if fd >= 32 || fd >= |part.files| || part.files[fd].Closed? {
      return false;
    }
    OpenFileFacts(part.S(), fd);
    var size := part.mem[part.files[fd].ino].node.size;
    ok := part.files[fd].pos <= size && (Blk(part.files[fd].pos + count) < 139 || Blk(size) < 139);
    if ok {
      ghost var f := part.files[fd];
      assert f.(pos := f.pos) == f && part.files[fd := f] == part.files;
      var r, data := part.Read(fd, count);
    }
  }

  /** The name is the root's, as far as sys_rmdir's assertion is concerned. */
  method CheckRoot(part: Partition, p: nat, name: Name) returns (b: bool)
    requires Inv(part.S()) && p in part.dirs
    modifies part`mem
    ensures part.S() == old(part.S()) && (b <==> FindsRoot(part.S(), p, name))
  {
    hide V, Inv;
    if name == DOTDOT {
      var up := ParentNr(part, p);
      return up == 0;
    }
    b := name == DOT && p == 0;
  }

  /** One call. It answers whether the run goes on: it does not exactly when the call is one after which
      nothing is promised. */
  method Perform(part: Partition, call: Call) returns (ok: bool)
    requires Good(part.S())
    modifies part
    ensures ok <==> !Stops(old(part.S()), call)
    ensures ok ==> Step(old(part.S()), part.S(), call)
  {
    hide V, Inv, Unslashed, CreateDone, MkdirDone, UnlinkDone, RmdirDone, OpenDone, BreaksTree, Refuses, FindsRoot,
         SlotClosed,
         Wrote, OpenedMem, ClosedMem, Components, TotalNeed, FreeBlocks, NoRoom, NoRead, DirOf;
    match call {
      case Write(fd, buf) => ok := DoWrite(part, fd, buf);
      case Read(fd, count) => ok := DoRead(part, fd, count);
      case CloseDir(d) => ok := DoCloseDir(part, d);
      case Close(fd) =>
        ok := fd < 32 && fd < |part.files| && part.files[fd].Open?;
        if ok {
          part.FileClose(fd);
        }
      case Create(dir, name, flag) =>
        ok := PathOk(dir) && NewName(name) && FirstClear(part.ib) < 256;
        if ok {
          var p := FindDir(part, dir);
          if p != -1 {
            DoCreate(part, p, name, flag);
          }
        }
      case Mkdir(dir, name) =>
        ok := PathOk(dir) && NewName(name) && FirstClear(part.ib) < 256;
        if ok {
          var p := FindDir(part, dir);
          if p != -1 {
            DoMkdir(part, p, name);
          }
        }
      case Unlink(dir, name) =>
        ok := PathOk(dir) && CleanName(name);
        if ok {
          var p := FindDir(part, dir);
          if p != -1 {
            DoUnlink(part, p, name);
          }
        }
      case Rmdir(dir, name) =>
        ok := PathOk(dir) && CleanName(name);
        if ok {
          var p := FindDir(part, dir);
          if p != -1 {
            var root := CheckRoot(part, p, name);
            ok := !root;
            if !root {
              ok := DoRmdir(part, p, name);
            }
          }
        }
      case OpenFile(dir, name, flag) =>
        ok := PathOk(dir) && CleanName(name);
        if ok {
          var p := FindDir(part, dir);
          if p != -1 {
            ok := DoOpen(part, p, name, flag);
          }
        }
      case OpenDir(dir) =>
        ok := PathOk(dir);
        if ok {
          var p := FindDir(part, dir);
          if p != -1 && dir != [SLASH] {
            part.OpenDir(p);
          }
        }
    }
  }

  /** A sequence of calls. It ends early exactly with a call after which nothing is promised. */
  method Run(part: Partition, calls: seq<Call>) returns (ok: bool, ghost trace: seq<Fs>)
    requires Good(part.S())
    modifies part
    ensures IsRun(trace, calls) && trace[0] == old(part.S()) && forall k :: 0 <= k < |trace| ==> Good(trace[k])
    ensures ok ==> |trace| == |calls| + 1 && part.S() == trace[|calls|]
    ensures !ok ==> |trace| <= |calls| && Stops(trace[|trace| - 1], calls[|trace| - 1])
  {
    hide Good, Stops, Step;
    trace := [part.S()];
    var k := 0;
    while k < |calls|
      invariant k <= |calls| && |trace| == k + 1 && part.S() == trace[k] && trace[0] == old(part.S())
      invariant IsRun(trace, calls) && forall j :: 0 <= j < |trace| ==> Good(trace[j])
    {
      ok := Perform(part, calls[k]);
      if !ok {
        return;
      }
      StepGood(trace[k], part.S(), calls[k]);
      trace := trace + [part.S()];
      k := k + 1;
    }
    ok := true;
  }

  /** The reading of the invariant: two references to a block are the same reference, and the block
      is marked, lies in the data region, and is not the root's unless the root has it. */
  lemma BlocksHaveOneOwner(s: Fs, i: nat, k: nat, j: nat, l: nat)
    requires Inv(s) && i in s.nodes && j in s.nodes && k <= 140 && l <= 140 && Ref(V(s, i), k) != 0
    ensures Ref(V(s, i), k) == Ref(V(s, j), l) ==> i == j && k == l
    ensures s.ds <= Ref(V(s, i), k) < |s.disk| && Bit(s, Ref(V(s, i), k))
    ensures i != 0 ==> Ref(V(s, i), k) != s.ds
  {
    hide V, DirOk, FileShape, OpenOk;
    OneOwner(s, i, k, i, k);
    OwnerOf(s, i, k);
    if Ref(V(s, i), k) == Ref(V(s, j), l) {
      OneOwner(s, i, k, j, l);
    }
  }

  /** Such a run may start on a partition that was just formatted. */
  lemma FirstGood(ds: nat, disk: seq<Sector>, bb: seq<bool>, ib: seq<bool>, itab: seq<Inode>)
    requires Formatted(ds, disk, bb, ib, itab)
    ensures Good(FirstState(ds, disk, bb, ib, itab))
  {
    hide V, Inv, Formatted, Slots, DotsSector, NewDirInode;
    FirstInv(ds, disk, bb, ib, itab);
    assert SLASH !in DOT && SLASH !in DOTDOT;
  }
}
