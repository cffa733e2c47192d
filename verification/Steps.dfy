/** What each call in a directory does to the state, from the opening of the directory to its closing, and
    that the invariant goes with it. */
module Steps {
  import opened Codec
  import opened Store
  import opened Directory
  import opened DirMoves
  import opened FileMoves
  import opened Tree
  import opened Consistency

  /** sys_open makes file i: directory p is opened, the file is created in it, and p is closed. */
  ghost predicate CreateStep(s: Fs, s': Fs, p: nat, i: nat, c: nat, g: nat, e: DirEntry, flag: nat) {
    exists s1, s2 :: DirOpened(s, s1, p) && FileCreated(s1, s2, p, i, c, g, e, flag) && DirClosed(s2, s', p)
  }

  /** Directory i made likewise, with the states after its block was taken and after its entry was synced. */
  ghost predicate MkdirStep(s: Fs, s': Fs, p: nat, i: nat, c: nat, e: DirEntry) {
    exists s1, x, y, s2, b: nat ::
        DirOpened(s, s1, p) && DirCreated(s1, x, y, s2, p, i, b, c, e) && DirClosed(s2, s', p)
  }

  /** A block taken and written, and nothing else. */
  ghost predicate MkdirLost(s: Fs, s': Fs, p: nat, lost: set<nat>) {
    exists s1, x, b: nat, sector ::
        DirOpened(s, s1, p) && BlockTaken(s1, x, b, sector) && DirClosed(x.(ib := s1.ib), s', p) && lost == {b}
  }

  /** Inode i removed with the entry in slot c of directory p. */
  ghost predicate RemoveStep(s: Fs, s': Fs, p: nat, i: nat, c: nat) {
    exists s1, m, s2 ::
        DirOpened(s, s1, p) && NodeRemoved(s1, m, s2, p, i, c) && s2.mem == m.mem && DirClosed(s2, s', p)
  }

  lemma SameTable(s: Fs, s1: Fs, p: nat)
    requires Inv(s) && p in s.dirs && DirOpened(s, s1, p)
    ensures V(s1, p) == V(s, p) && forall d :: d in s.dirs ==> V(s1, d) == V(s, d)
  {
    hide V, Inv, Core;
    OpenedKeeps(s, s1, p);
    DirsAreNodes(s);
  }

  lemma CreateKeeps(s: Fs, s': Fs, p: nat, i: nat, c: nat, g: nat, e: DirEntry, flag: nat)
    requires Inv(s) && p in s.dirs && e.name != [] && !NameIn(s, p, e.name) && CreateStep(s, s', p, i, c, g, e, flag)
    ensures Inv(s') && FileMade(s, s', p, i, c, g, e, flag)
  {
    hide V, Inv, Slots, FileCreated, FileMade;
    var s1, s2 :| DirOpened(s, s1, p) && FileCreated(s1, s2, p, i, c, g, e, flag) && DirClosed(s2, s', p);
    SameTable(s, s1, p);
    InvFileMade(s, s1, s2, s', p, i, c, g, e, flag);
  }

  lemma MkdirKeeps(s: Fs, s': Fs, p: nat, i: nat, c: nat, e: DirEntry)
    requires Inv(s) && p in s.dirs && e.name != [] && !NameIn(s, p, e.name) && MkdirStep(s, s', p, i, c, e)
    ensures Inv(s') && DirMade(s, s', p, i, c, e)
  {
    hide V, Inv, Slots, DirCreated, DirMade;
    var s1, x, y, s2, b: nat :| DirOpened(s, s1, p) && DirCreated(s1, x, y, s2, p, i, b, c, e) && DirClosed(s2, s', p);
    SameTable(s, s1, p);
    InvDirMade(s, s1, x, y, s2, s', p, i, b, c, e);
  }

  lemma LostKeeps(s: Fs, s': Fs, p: nat, lost: set<nat>)
    requires Inv(s) && p in s.dirs && MkdirLost(s, s', p, lost)
    ensures Inv(s') && MkdirFailed(s, s', lost)
  {
    hide V, Inv, BlockTaken, MkdirFailed;
    var s1, x, b: nat, sector :|
        DirOpened(s, s1, p) && BlockTaken(s1, x, b, sector) && DirClosed(x.(ib := s1.ib), s', p) && lost == {b};
    InvMkdirFailed(s, s1, x, x.(ib := s1.ib), s', p, b, sector);
  }

  /** The removal of a regular file or of an empty directory keeps the invariant exactly when the inode
      is not on the open list. */
  lemma RemoveKeeps(s: Fs, s': Fs, p: nat, i: nat, c: nat)
    requires Inv(s) && p in s.dirs && RemoveStep(s, s', p, i, c)
    requires 2 <= c < 2940 && Slots(V(s, p))[c].ino == i && i in s.nodes
    requires i in s.dirs ==> forall x :: 2 <= x < 2940 ==> !Live(Slots(V(s, i))[x])
    ensures Core(s') && NodeGone(s, s', p, i, c) && (Inv(s') <==> i !in s.mem)
  {
    hide V, Inv, Core, Slots, NodeRemoved, NodeGone, Live;
    var s1, m, s2 :| DirOpened(s, s1, p) && NodeRemoved(s1, m, s2, p, i, c) && s2.mem == m.mem && DirClosed(s2, s', p);
    SameTable(s, s1, p);
    InvNodeGone(s, s1, m, s2, s', p, i, c);
  }

  // ---- the relations from their parts ----

  lemma CreateFrom(s: Fs, s1: Fs, s2: Fs, s': Fs, p: nat, i: nat, c: nat, g: nat, e: DirEntry, flag: nat)
    requires DirOpened(s, s1, p) && FileCreated(s1, s2, p, i, c, g, e, flag) && DirClosed(s2, s', p)
    ensures CreateStep(s, s', p, i, c, g, e, flag)
  {
    hide FileCreated, DirOpened, DirClosed;
  }

  lemma MkdirFrom(s: Fs, s1: Fs, x: Fs, y: Fs, s2: Fs, s': Fs, p: nat, i: nat, b: nat, c: nat, e: DirEntry)
    requires DirOpened(s, s1, p) && DirCreated(s1, x, y, s2, p, i, b, c, e) && DirClosed(s2, s', p)
    ensures MkdirStep(s, s', p, i, c, e)
  {
    hide DirCreated, DirOpened, DirClosed;
  }

  lemma LostFrom(s: Fs, s1: Fs, x: Fs, s2: Fs, s': Fs, p: nat, b: nat, sector: Sector)
    requires DirOpened(s, s1, p) && BlockTaken(s1, x, b, sector) && s2 == x.(ib := s1.ib) && DirClosed(s2, s', p)
    ensures MkdirLost(s, s', p, {b})
  {
    hide BlockTaken, DirOpened, DirClosed;
  }

  lemma RemoveFrom(s: Fs, s1: Fs, m: Fs, s2: Fs, s': Fs, p: nat, i: nat, c: nat)
    requires DirOpened(s, s1, p) && NodeRemoved(s1, m, s2, p, i, c) && s2.mem == m.mem && DirClosed(s2, s', p)
    ensures RemoveStep(s, s', p, i, c)
  {
    hide NodeRemoved, DirOpened, DirClosed;
  }
}
