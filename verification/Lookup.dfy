/** search_file and sys_getcwd: from paths to inodes and back. */
module Lookup {
  import opened Codec
  import opened Store
  import opened Directory
  import opened FileMoves
  import opened Moves
  import opened Tree
  import opened Consistency
  import opened Partitions
  import opened Paths

  /** What search_file reports: the inode with the directory that names it, or the directory where
      a component is missing. */
  datatype Walked = Found(ino: nat, parent: nat, ftype: nat) | Missing(parent: nat)

  /** The walk stops at the first regular file, whatever follows it in the path. */
  function Walk(t: map<nat, seq<DirEntry>>, d: nat, up: nat, cs: seq<Name>): Walked
    decreases |cs|
  {
    if cs == [] then Found(d, up, FT_DIRECTORY)
    else if d !in t then Missing(d)
    else match Find(t[d], cs[0])
      case None => Missing(d)
      case Some(e) => if e.ftype == FT_DIRECTORY then Walk(t, e.ino, d, cs[1..]) else Found(e.ino, d, FT_REGULAR)
  }

  /** An entry that is found is live, and names a node of its kind. */
  lemma FoundNode(t: map<nat, seq<DirEntry>>, nodes: set<nat>, par: map<nat, (nat, nat)>, d: nat, n: Name, e: DirEntry)
    requires Rooted(t, nodes, par) && d in t && n != [] && Find(t[d], n) == Some(e)
    ensures e.ino in nodes
    ensures e.ftype == FT_DIRECTORY <==> e.ino in t
    ensures e.ftype == FT_DIRECTORY || e.ftype == FT_REGULAR
  {
    var c :| 0 <= c < 2940 && t[d][c] == e && t[d][c].name == n;
    assert Live(t[d][c]);
  }

  /** The first k components name the file i, and more components after it name nothing. */
  predicate StopsAt(t: map<nat, seq<DirEntry>>, d: nat, cs: seq<Name>, k: nat, i: nat) {
    && 0 < k <= |cs| && Resolve(t, d, cs[..k]) == Some(i)
    && Resolve(t, d, cs) == if k == |cs| then Some(i) else None
  }

  /** search_file against the tree: a directory result is what the path names, a missing component
      means that it names nothing, and a file result is what some prefix of the path names. */
  lemma {:induction false} WalkResolves(t: map<nat, seq<DirEntry>>, nodes: set<nat>, par: map<nat, (nat, nat)>, d: nat,
                                        up: nat,
                                        cs: seq<Name>)
    requires Rooted(t, nodes, par) && d in t && Clean(cs)
    ensures match Walk(t, d, up, cs)
            case Missing(p) => Resolve(t, d, cs).None?
            case Found(i, p, ft) =>
              && (ft == FT_DIRECTORY ==> Resolve(t, d, cs) == Some(i))
              && (ft != FT_DIRECTORY ==> i !in t && exists k: nat :: StopsAt(t, d, cs, k, i))
    decreases |cs|
  {
    hide Rooted, Find;
    if cs != [] && Find(t[d], cs[0]).Some? {
      var e := Find(t[d], cs[0]).value;
      assert CleanName(cs[0]);
      FoundNode(t, nodes, par, d, cs[0], e);
      assert cs[..1][1..] == [];
      if e.ftype == FT_DIRECTORY {
        WalkResolves(t, nodes, par, e.ino, d, cs[1..]);
        var w := Walk(t, e.ino, d, cs[1..]);
        if w.Found? && w.ftype != FT_DIRECTORY {
          var k: nat :| StopsAt(t, e.ino, cs[1..], k, w.ino);
          assert cs[..k + 1][1..] == cs[1..][..k];
          assert StopsAt(t, d, cs, k + 1, w.ino);
        }
      } else {
        assert cs[..1][0] == cs[0] && Resolve(t, d, cs[..1]) == Resolve(t, e.ino, []);
        assert Resolve(t, d, cs) == Resolve(t, e.ino, cs[1..]);
        assert StopsAt(t, d, cs, 1, e.ino);
      }
    }
  }

  /** The directory that search_file reports beside its answer: for a file it is where the file is named; for
      a missing component, where that is missing; and for a directory, what the path leads to without its
      last component. */
  lemma {:induction false} WalkParent(t: map<nat, seq<DirEntry>>, nodes: set<nat>, par: map<nat, (nat, nat)>, d: nat,
                                      up: nat, cs: seq<Name>)
    requires Rooted(t, nodes, par) && d in t && Clean(cs)
    ensures match Walk(t, d, up, cs)
            case Missing(p) => exists k ::
                0 <= k < |cs| && Resolve(t, d, cs[..k]) == Some(p) && p in t && Find(t[p], cs[k]).None?
            case Found(i, p, ft) =>
              if ft == FT_DIRECTORY then
                if cs == [] then i == d && p == up else p in t && Resolve(t, d, cs[..|cs| - 1]) == Some(p)
              else exists k :: 0 <= k < |cs| && StandsIn(t, d, cs, k, p, i)
    decreases |cs|
  {
    hide Rooted, Find;
    if cs != [] {
      assert cs[..0] == [] && Resolve(t, d, []) == Some(d);
      if Find(t[d], cs[0]).Some? {
        var e := Find(t[d], cs[0]).value;
        assert CleanName(cs[0]);
        FoundNode(t, nodes, par, d, cs[0], e);
        if e.ftype == FT_DIRECTORY {
          WalkParent(t, nodes, par, e.ino, d, cs[1..]);
          ParentBelow(t, d, e, cs, Walk(t, e.ino, d, cs[1..]));
        } else {
          assert StandsIn(t, d, cs, 0, d, e.ino);
        }
      }
    }
  }

  /** Component k of the path names i in directory p, to which the components before it lead. */
  predicate StandsIn(t: map<nat, seq<DirEntry>>, d: nat, cs: seq<Name>, k: nat, p: nat, i: nat) {
    && k < |cs| && Resolve(t, d, cs[..k]) == Some(p) && p in t
    && Find(t[p], cs[k]).Some? && Find(t[p], cs[k]).value.ino == i
  }

  lemma DeeperPath(t: map<nat, seq<DirEntry>>, d: nat, e: DirEntry, cs: seq<Name>, k: nat)
    requires d in t && cs != [] && Find(t[d], cs[0]) == Some(e) && k <= |cs| - 1
    ensures Resolve(t, d, cs[..k + 1]) == Resolve(t, e.ino, cs[1..][..k]) && (k < |cs| - 1 ==> cs[k + 1] == cs[1..][k])
  {
    hide Find;
    assert cs[..k + 1][1..] == cs[1..][..k] && cs[..k + 1][0] == cs[0];
  }

  /** What holds below the first component holds of the whole path. */
  lemma ParentBelow(t: map<nat, seq<DirEntry>>, d: nat, e: DirEntry, cs: seq<Name>, w: Walked)
    requires d in t && cs != [] && Find(t[d], cs[0]) == Some(e)
    requires match w
             case Missing(p) => exists k :: 0 <= k < |cs| - 1 && Resolve(t, e.ino, cs[1..][..k]) == Some(p) && p in t
                                            && Find(t[p], cs[1..][k]).None?
             case Found(i, p, ft) =>
               if ft == FT_DIRECTORY then
                 if cs[1..] == [] then i == e.ino && p == d
                 else p in t && Resolve(t, e.ino, cs[1..][..|cs| - 2]) == Some(p)
               else exists k :: 0 <= k < |cs| - 1 && StandsIn(t, e.ino, cs[1..], k, p, i)
    ensures match w
            case Missing(p) => exists k ::
                0 <= k < |cs| && Resolve(t, d, cs[..k]) == Some(p) && p in t && Find(t[p], cs[k]).None?
            case Found(i, p, ft) =>
              if ft == FT_DIRECTORY then p in t && Resolve(t, d, cs[..|cs| - 1]) == Some(p)
              else exists k :: 0 <= k < |cs| && StandsIn(t, d, cs, k, p, i)
  {
    hide Find, Resolve;
    match w {
      case Missing(p) =>
        var k :| 0 <= k < |cs| - 1 && Resolve(t, e.ino, cs[1..][..k]) == Some(p) && p in t
            && Find(t[p], cs[1..][k]).None?;
        DeeperPath(t, d, e, cs, k);
      case Found(i, p, ft) =>
        if ft == FT_DIRECTORY {
          if |cs| == 1 {
            assert cs[..0] == [];
            ResolveNothing(t, d);
          } else {
            DeeperPath(t, d, e, cs, |cs| - 2);
          }
        } else {
          var k :| 0 <= k < |cs| - 1 && StandsIn(t, e.ino, cs[1..], k, p, i);
          DeeperPath(t, d, e, cs, k);
          assert StandsIn(t, d, cs, k + 1, p, i);
        }
    }
  }

  lemma ResolveNothing(t: map<nat, seq<DirEntry>>, d: nat)
    ensures Resolve(t, d, []) == Some(d)
  {}

  // ---- directories opened on the way ----

  /** The open list while search_file stands in directory d: root_dir itself is not counted. */
  function Standing(s: Fs, d: nat, isRoot: bool): map<nat, MemInode>
    requires d < |s.itab|
  {
    if isRoot then s.mem else OpenedMem(s.mem, s.itab, d)
  }

  lemma StandingSame(s: Fs, s1: Fs, d: nat, isRoot: bool)
    requires Inv(s) && d in s.dirs && d < |s.itab| && (isRoot ==> d == 0) && s1 == s.(mem := Standing(s, d, isRoot))
    ensures d in s1.mem && s1.mem[d].cnt >= 1 && forall j :: V(s1, j) == V(s, j)
    ensures (if isRoot then s1.mem else ClosedMem(s1.mem, d)) == s.mem
  {
    hide ViewOf, Core;
    if !isRoot {
      ClosedOpened(s.mem, s.itab, d);
    }
    ZeroOpen(s);
  }

  lemma ZeroOpen(s: Fs)
    requires Inv(s)
    ensures 0 in s.mem && 0 in s.dirs && forall d :: d in s.dirs ==> d < |s.itab|
  {
    hide V, Owned, DirOk, FileShape, EntriesLink, ParentsLink, DotsLink;
    assert 0 in Tables(s);
  }

  lemma InvRooted(s: Fs)
    requires Inv(s)
    ensures Rooted(Tables(s), s.nodes, s.par) && Tables(s).Keys == s.dirs
  {
    hide V, Owned, FileShape, TreeOk, Slots, OpenOk;
    forall d | d in s.dirs
      ensures SlotShape(Slots(V(s, d)))
    {
      assert DirOk(V(s, d));
    }
  }

  /** What search_dir_entry delivers is what Find finds. */
  lemma SearchIsFind(s: Fs, d: nat, name: Name, found: bool, e: DirEntry, c: nat)
    requires Inv(s) && d in s.dirs && name != []
    requires found ==> c < 2940 && e == Slots(V(s, d))[c] && e.name == name
    requires !found ==> forall x :: 0 <= x < 2940 ==> Slots(V(s, d))[x].name != name
    ensures d in Tables(s) && Find(Tables(s)[d], name) == if found then Some(e) else None
  {
    hide V, Slots, Inv, TreeOk;
    InvRooted(s);
    var t := Tables(s)[d];
    assert SlotShape(t);
    if found {
      assert Live(t[c]);
      FindIs(t, c);
    }
  }

  /** dir_close on the directory the search stands in, and dir_open on the next. */
  method StepInto(part: Partition, d: nat, isRoot: bool, i: nat, ghost s: Fs)
    requires Inv(s) && d in s.dirs && i in s.dirs && (isRoot ==> d == 0) && d < |s.itab| && i < |s.itab|
    requires part.S() == s.(mem := Standing(s, d, isRoot))
    modifies part`mem
    ensures part.S() == s.(mem := Standing(s, i, false))
  {
    hide V, Inv;
    StandingSame(s, part.S(), d, isRoot);
    if !isRoot {
      part.InodeClose(d);
    }
    assert part.mem == s.mem;
    part.InodeOpen(i);
  }

  /** search_dir_entry in the directory the search stands in. */
  method Look(part: Partition, d: nat, isRoot: bool, name: Name, ghost s: Fs) returns (found: bool, e: DirEntry)
    requires Inv(s) && d in s.dirs && (isRoot ==> d == 0) && d < |s.itab| && CleanName(name)
    requires part.S() == s.(mem := Standing(s, d, isRoot))
    ensures d in Tables(s) && Find(Tables(s)[d], name) == if found then Some(e) else None
    ensures found ==>
              e.ino in s.nodes && (e.ftype == FT_DIRECTORY <==> e.ino in s.dirs)
                  && (e.ftype == FT_DIRECTORY || e.ftype == FT_REGULAR)
  {
    hide V, Inv, Find, Slots, Standing, Rooted;
    StandingSame(s, part.S(), d, isRoot);
    ghost var c;
    found, e, c := part.SearchDirEntry(d, name);
    SearchIsFind(s, d, name, found, e, c);
    InvRooted(s);
    if found {
      FoundNode(Tables(s), s.nodes, s.par, d, name, e);
    }
  }

  /** The components that the search has still to look at. */
  function Left(name: Name, sub: seq<byte>): seq<Name> {
    if name == [] then [] else [name] + Components(sub)
  }

  /** search_file. The path has a component unless it is "/": for other runs of slashes the code
      returns an entry that it never read. */
  method SearchFile(part: Partition, path: seq<byte>) returns (r: int, parent: nat, isRoot: bool, ftype: nat)
    requires Inv(part.S()) && path != [] && path[0] == SLASH
    requires Components(path) != [] || path == [SLASH]
    modifies part`mem
    ensures var w := Walk(Tables(old(part.S())), 0, 0, Components(path));
            && parent == w.parent && r == (if w.Found? then w.ino else -1) && ftype == (if w.Found? then w.ftype else 0)
    ensures parent in old(part.dirs) && parent < |part.itab| && (isRoot ==> parent == 0)
    ensures part.S() == old(part.S()).(mem := Standing(old(part.S()), parent, isRoot))
  {
    hide V, Inv, First, Rest, Components, Find, Slots, Rooted, OpenedMem, Walk, Left, Tables;
    ghost var s := part.S();
    ghost var t := Tables(s);
    ghost var cs := Components(path);
    ZeroOpen(s);
    InvRooted(s);
    if path == [SLASH] || path == [SLASH, 46] || path == [SLASH, 46, 46] {
      RootNames(t, s.nodes, s.par, path);
      return 0, 0, true, FT_DIRECTORY;
    }
    LeftStart(path);
    var name, sub := PathParse(path);
    var d, up := 0, 0;
    isRoot := true;
    while name != []
      invariant d in s.dirs && up in s.dirs && (isRoot ==> d == 0) && part.S() == s.(mem := Standing(s, d, isRoot))
      invariant (name == [] || CleanName(name)) && Walk(t, 0, 0, cs) == Walk(t, d, up, Left(name, sub))
      decreases |sub| + |name|
    {
      var found, e := Look(part, d, isRoot, name, s);
      WalkStep(t, d, up, name, sub);
      if !found {
        return -1, d, isRoot, 0;
      }
      LeftStart(sub);
      name, sub := PathParse(sub);
      if e.ftype == FT_DIRECTORY {
        up := d;
        StepInto(part, d, isRoot, e.ino, s);
        d, isRoot := e.ino, false;
      } else {
        return e.ino, d, isRoot, FT_REGULAR;
      }
    }
    WalkEnd(t, d, up, sub);
    StepInto(part, d, isRoot, up, s);
    return d, up, false, FT_DIRECTORY;
  }

  lemma LeftStart(p: seq<byte>)
    ensures Left(First(p), Rest(p)) == Components(p) && (First(p) == [] || CleanName(First(p)))
    ensures |First(p)| + |Rest(p)| <= |p|
  {
    ComponentsStep(p);
  }

  lemma WalkStep(t: map<nat, seq<DirEntry>>, d: nat, up: nat, n: Name, sub: seq<byte>)
    requires d in t && n != []
    ensures Walk(t, d, up, Left(n, sub))
         == match Find(t[d], n)
            case None => Missing(d)
            case Some(e) =>
              if e.ftype == FT_DIRECTORY then Walk(t, e.ino, d, Components(sub)) else Found(e.ino, d, FT_REGULAR)
  {
    hide Find, Components;
    assert Left(n, sub)[1..] == Components(sub);
  }

  lemma WalkEnd(t: map<nat, seq<DirEntry>>, d: nat, up: nat, sub: seq<byte>)
    ensures Walk(t, d, up, Left([], sub)) == Found(d, up, FT_DIRECTORY)
  {}

  /** The three names that search_file answers at once walk to the root as well. */
  lemma RootNames(t: map<nat, seq<DirEntry>>, nodes: set<nat>, par: map<nat, (nat, nat)>, path: seq<byte>)
    requires Rooted(t, nodes, par) && (path == [SLASH] || path == [SLASH, 46] || path == [SLASH, 46, 46])
    ensures Walk(t, 0, 0, Components(path)) == Found(0, 0, FT_DIRECTORY)
  {
    hide Find;
    RootHasNoParent(t, nodes, par);
    FindIs(t[0], 0);
    FindIs(t[0], 1);
    var st := if path == [SLASH] then [] else [path[1..]];
    assert path == Spell(st) by {
      if st != [] {
        assert Render(st[..0]) == [];
      }
    }
    ComponentsOfSpell(st);
  }

  // ---- sys_getcwd ----

  /** No name in the tree has a slash in it. */
  ghost predicate Unslashed(s: Fs) {
    forall d, c :: d in s.dirs && 0 <= c < 2940 ==> SLASH !in Slots(V(s, d))[c].name
  }

  /** Creating a name that path_parse delivered, and removing any, keep that. */
  lemma UnslashedKept(s: Fs, s': Fs, p: nat, i: nat, c: nat, fd: nat, e: DirEntry, flag: nat)
    requires Inv(s) && Unslashed(s) && p in s.dirs
    requires || (FileMade(s, s', p, i, c, fd, e, flag) && SLASH !in e.name)
             || (DirMade(s, s', p, i, c, e) && SLASH !in e.name)
             || NodeGone(s, s', p, i, c)
    ensures Unslashed(s')
  {
    hide V, Core, Slots, CountLive, HasLive, Leaked, OpenOk;
    DirsAreNodes(s);
    assert SLASH !in DOT && SLASH !in DOTDOT;
    forall d, x | d in s'.dirs && 0 <= x < 2940
      ensures SLASH !in Slots(V(s', d))[x].name
    {
      if d in s.dirs && d != p {
        assert V(s', d) == V(s, d);
      }
    }
  }

  /** Opening and closing an inode in between leaves the open list as it was. */
  lemma OpenShut(s: Fs, s1: Fs, i: nat)
    requires Inv(s) && i in s.dirs && i < |s.itab|
    requires s1 == s.(mem := OpenedMem(s.mem, s.itab, i))
    ensures i in s1.mem && s1.mem[i].cnt >= 1 && V(s1, i) == V(s, i)
    ensures ClosedMem(s1.mem, i) == s.mem
  {
    hide V, Inv;
    StandingSame(s, s1, i, false);
  }

  /** inode_open, all_blocks, inode_close. */
  method BlocksOnce(part: Partition, i: nat) returns (ab: seq<nat>, cnt: nat)
    requires Inv(part.S()) && i in part.dirs
    modifies part`mem
    ensures part.S() == old(part.S()) && ab == V(part.S(), i).ab && cnt == if V(part.S(), i).tab != 0 then 140 else 12
    ensures forall k :: 0 <= k < 140 && ab[k] != 0 ==> At(part.disk, ab[k]) == V(part.S(), i).body[k]
  {
    hide V, Inv, OpenedMem, ClosedMem;
    ghost var s := part.S();
    CanOpen(s, i);
    part.InodeOpen(i);
    ghost var s1 := part.S();
    OpenShut(s, s1, i);
    ab := part.LoadBlocks(i);
    HeadOfView(s1, i);
    cnt := if part.mem[i].node.sec[12] != 0 then 140 else 12;
    part.InodeClose(i);
  }

  /** get_parent_dir_inode_nr: entry 1 of a directory's first block. */
  method ParentNr(part: Partition, i: nat) returns (p: nat)
    requires Inv(part.S()) && i in part.dirs
    modifies part`mem
    ensures part.S() == old(part.S()) && p == ParentOf(part.par, i) && p in part.dirs
  {
    hide V, Inv, Slots;
    ghost var s := part.S();
    var ab, cnt := BlocksOnce(part, i);
    DotDotIs(s, i);
    var buf := Entries(At(part.disk, ab[0]));
    return buf[1].ino;
  }

  lemma DotDotIs(s: Fs, i: nat)
    requires Inv(s) && i in s.dirs
    ensures V(s, i).ab[0] != 0 && Entries(V(s, i).body[0])[1].ino == ParentOf(s.par, i) && ParentOf(s.par, i) in s.dirs
  {
    hide V, Owned, FileShape, Slots, HasDepth, OpenOk, EntriesLink, Leaked;
    InvRooted(s);
    assert DirOk(V(s, i));
    var t := Slots(V(s, i));
    assert Live(t[0]) && HasLive(t, 0);
    SlotOfBlock(V(s, i), 0, 1);
    assert Tables(s)[i] == t;
    ZeroOpen(s);
  }

  /** The slots of directory p with inode number i, which lies right below p: there is one. */
  lemma OnlyChildSlot(t: map<nat, seq<DirEntry>>, nodes: set<nat>, par: map<nat, (nat, nat)>, p: nat, i: nat, c: nat)
    requires Rooted(t, nodes, par) && i in par && par[i].0 == p && c < 2940
    ensures p in t && (t[p][c].ino == i <==> c == par[i].1)
  {
    hide Find;
    var depth :| Graded(par, depth);
    assert depth[i] == depth[p] + 1 && (p in par ==> depth[p] == depth[par[p].0] + 1);
    assert Live(t[p][c]) || t[p][c] == DEAD;
  }

  /** get_child_dir_name: the first entry with this inode number. */
  method ChildName(part: Partition, p: nat, i: nat) returns (name: Option<Name>)
    requires Inv(part.S()) && i in part.par && part.par[i].0 == p && p in part.dirs
    modifies part`mem
    ensures part.S() == old(part.S()) && part.par[i].1 < 2940
    ensures name == Some(Slots(V(part.S(), p))[part.par[i].1].name)
  {
    hide V, Inv, Slots, Rooted, Tables;
    ghost var s := part.S();
    ghost var v := V(s, p);
    InvRooted(s);
    var ab, cnt := BlocksOnce(part, p);
    ChildSlots(s, p, i, cnt);
    var k := 0;
    while k < cnt
      invariant k <= cnt && k <= s.par[i].1 / 21 && part.S() == s
    {
      var j := 21;
      if ab[k] != 0 {
        var buf := Entries(At(part.disk, ab[k]));
        j := FindNr(buf, i);
        if j < 21 {
          SlotOfBlock(v, k, j);
          OnlyChildSlot(Tables(s), s.nodes, s.par, p, i, 21 * k + j);
          return Some(buf[j].name);
        }
      }
      NotInBlock(v, k, s.par[i].1, i);
      k := k + 1;
    }
    assert false;
  }

  /** The entry loop of get_child_dir_name over one block. */
  method FindNr(buf: seq<DirEntry>, i: nat) returns (j: nat)
    requires |buf| == 21
    ensures j <= 21 && (forall x :: 0 <= x < j ==> buf[x].ino != i) && (j < 21 ==> buf[j].ino == i)
  {
    j := 0;
    while j < 21
      invariant j <= 21 && forall x :: 0 <= x < j ==> buf[x].ino != i
    {
      if buf[j].ino == i {
        return;
      }
      j := j + 1;
    }
  }

  lemma NotInBlock(v: View, k: nat, c: nat, i: nat)
    requires k < 140 && c < 2940 && Slots(v)[c].ino == i && i != 0 && k <= c / 21
    requires v.ab[k] != 0 ==> forall x :: 0 <= x < 21 ==> Entries(v.body[k])[x].ino != i
    ensures k < c / 21
  {
    BlockOfSlot(v, c);
  }

  lemma ChildSlots(s: Fs, p: nat, i: nat, cnt: nat)
    requires Inv(s) && p in s.dirs && i in s.par && s.par[i].0 == p && cnt == if V(s, p).tab != 0 then 140 else 12
    ensures i != 0 && s.par[i].1 < 2940 && s.par[i].1 / 21 < cnt
    ensures Slots(V(s, p))[s.par[i].1].ino == i && p in Tables(s) && Tables(s)[p] == Slots(V(s, p))
  {
    hide V, Owned, FileShape, Slots, HasDepth, OpenOk, EntriesLink, DotsLink, CountLive;
    var v := V(s, p);
    assert DirOk(v) && Tables(s)[p] == Slots(v);
    var c := s.par[i].1;
    assert Live(Slots(v)[c]) && HasLive(Slots(v), c / 21);
  }

  function Reverse(ns: seq<Name>): (r: seq<Name>)
    ensures |r| == |ns|
  {
    if ns == [] then [] else [ns[|ns| - 1]] + Reverse(ns[..|ns| - 1])
  }

  /** The names collected on the way up, child first, lead back down from directory d to w. */
  ghost predicate LeadsDown(s: Fs, d: nat, ns: seq<Name>, w: nat) {
    d in s.dirs && Normal(Reverse(ns)) && Clean(ns) && Resolve(Tables(s), d, Reverse(ns)) == Some(w)
  }

  /** The entry of inode i in its parent directory p is found by its name, which is a real one. */
  lemma EntryOfChild(s: Fs, i: nat, p: nat, name: Name)
    requires Inv(s) && Unslashed(s) && i in s.par && s.par[i].0 == p && s.par[i].1 < 2940 && p in s.dirs
    requires name == Slots(V(s, p))[s.par[i].1].name
    ensures p in Tables(s) && CleanName(name) && name != DOT && name != DOTDOT
    ensures Find(Tables(s)[p], name).Some? && Find(Tables(s)[p], name).value.ino == i
  {
    hide V, Owned, FileShape, Slots, HasDepth, OpenOk, EntriesLink, DotsLink, CountLive, Find;
    InvRooted(s);
    var t := Tables(s);
    FindIs(t[p], s.par[i].1);
    assert Live(t[p][0]) && Live(t[p][1]);
  }

  lemma LeadsUp(s: Fs, i: nat, p: nat, ns: seq<Name>, w: nat, name: Name)
    requires Inv(s) && Unslashed(s) && i in s.par && s.par[i].0 == p && s.par[i].1 < 2940 && LeadsDown(s, i, ns, w)
    requires p in s.dirs && name == Slots(V(s, p))[s.par[i].1].name
    ensures LeadsDown(s, p, ns + [name], w)
  {
    hide V, Inv, Unslashed, Slots, Find, Tables, CleanName;
    EntryOfChild(s, i, p, name);
    var t := Tables(s);
    assert (ns + [name])[..|ns|] == ns;
    assert Reverse(ns + [name]) == [name] + Reverse(ns);
    assert ([name] + Reverse(ns))[1..] == Reverse(ns);
    assert Resolve(t, p, [name] + Reverse(ns)) == Resolve(t, i, Reverse(ns));
  }

  /** The second loop of sys_getcwd: cutting components off the end of the reversed path and
      appending them spells the path. */
  method Unreverse(rev: seq<byte>, ghost ns: seq<Name>) returns (buf: seq<byte>)
    requires Clean(ns) && rev == Render(ns)
    ensures buf == Render(Reverse(ns))
  {
    hide Render, LastSlash;
    buf := [];
    var left := rev;
    ghost var k: nat := |ns|;
    assert ns[..|ns|] == ns;
    RenderNone(ns);
    while SLASH in left
      invariant k <= |ns| && left == Render(ns[..k]) && buf + Render(Reverse(ns[..k])) == Render(Reverse(ns))
      decreases k
    {
      if k == 0 {
        assert false;
      }
      LastOfRender(ns[..k]);
      assert ns[..k][..k - 1] == ns[..k - 1];
      var cut := LastSlash(left);
      ReverseFront(ns[..k]);
      ghost var more := Render(Reverse(ns[..k - 1]));
      assert buf + (left[cut..] + more) == buf + left[cut..] + more;
      buf := buf + left[cut..];
      left := left[..cut];
      k := k - 1;
    }
    if k > 0 {
      LastOfRender(ns[..k]);
      assert false;
    }
    assert buf + [] == buf;
  }

  lemma RenderNone(ns: seq<Name>)
    ensures Render(ns[..0]) == [] && Render(Reverse(ns[..0])) == []
  {}

  lemma ReverseFront(ns: seq<Name>)
    requires ns != []
    ensures Render(Reverse(ns)) == [SLASH] + ns[|ns| - 1] + Render(Reverse(ns[..|ns| - 1]))
  {
    RenderFront(Reverse(ns));
    assert Reverse(ns)[1..] == Reverse(ns[..|ns| - 1]);
  }

  /** sys_getcwd. It ends, and the path it builds has no ".", ".." or empty component and names
      the working directory. */
  method GetCwd(part: Partition, cwd: nat) returns (path: seq<byte>)
    requires Inv(part.S()) && Unslashed(part.S()) && cwd in part.dirs
    modifies part`mem
    ensures part.S() == old(part.S())
    ensures Normal(Components(path)) && path == Spell(Components(path)) && path != [] && path[0] == SLASH
    ensures Resolve(Tables(part.S()), 0, Components(path)) == Some(cwd)
  {
    hide V, Inv, Slots, LeadsDown, Unslashed, Render, Reverse;
    if cwd == 0 {
      RootSpelled(part.S());
      return [SLASH];
    }
    ghost var s := part.S();
    ghost var depth := DepthOf(s);
    var rev, i := [], cwd;
    ghost var ns: seq<Name> := [];
    CwdStart(s, cwd, depth);
    while i != 0
      invariant part.S() == s && LeadsDown(s, i, ns, cwd) && rev == Render(ns) && i in depth && (i == 0 ==> ns != [])
      decreases depth[i]
    {
      ClimbStep(s, depth, i, ns, cwd);
      var p := ParentNr(part, i);
      var name := ChildName(part, p, i);
      LeadsUp(s, i, p, ns, cwd, name.value);
      RenderLast(ns, name.value);
      rev := rev + [SLASH] + name.value;
      ns := ns + [name.value];
      i := p;
    }
    CwdEnd(s, ns, cwd);
    path := Unreverse(rev, ns);
  }

  ghost function DepthOf(s: Fs): (depth: map<nat, nat>)
    requires Inv(s)
    ensures Graded(s.par, depth)
  {
    assert TreeOk(Tables(s), s.nodes, s.par);
    var depth :| Graded(s.par, depth);
    depth
  }

  lemma ClimbStep(s: Fs, depth: map<nat, nat>, i: nat, ns: seq<Name>, w: nat)
    requires Inv(s) && Graded(s.par, depth) && i != 0 && LeadsDown(s, i, ns, w)
    ensures i in s.par && i in s.dirs && i in depth && s.par[i].0 in depth && depth[s.par[i].0] < depth[i]
  {
    hide V, Owned, FileShape, DirOk, HasDepth, OpenOk, EntriesLink, DotsLink, ParentsLink, Resolve;
  }

  lemma RootSpelled(s: Fs)
    ensures Components([SLASH]) == [] && Resolve(Tables(s), 0, []) == Some(0) && Spell([]) == [SLASH]
  {
    ComponentsOfSpell([]);
  }

  lemma CwdStart(s: Fs, w: nat, depth: map<nat, nat>)
    requires Inv(s) && w in s.dirs && w != 0 && Graded(s.par, depth)
    ensures LeadsDown(s, w, [], w) && Render([]) == [] && w in depth
  {
    hide Inv, V;
    ClimbStep(s, depth, w, [], w);
  }

  lemma RenderLast(ns: seq<Name>, n: Name)
    ensures Render(ns + [n]) == Render(ns) + [SLASH] + n
  {
    assert (ns + [n])[..|ns|] == ns;
  }

  lemma CwdEnd(s: Fs, ns: seq<Name>, w: nat)
    requires LeadsDown(s, 0, ns, w) && ns != []
    ensures Clean(ns) && Normal(Reverse(ns))
    ensures var path := Render(Reverse(ns));
            && Components(path) == Reverse(ns) && path == Spell(Reverse(ns)) && path != [] && path[0] == SLASH
            && Resolve(Tables(s), 0, Reverse(ns)) == Some(w)
  {
    hide V, Tables, Resolve;
    ComponentsOfRender(Reverse(ns));
    RenderStart(Reverse(ns));
  }

  /** search_file maps the path that sys_getcwd builds back to the directory, and washing it
      changes nothing. */
  method CwdFound(part: Partition, cwd: nat) returns (r: int)
    requires Inv(part.S()) && Unslashed(part.S()) && cwd in part.dirs
    modifies part`mem
    ensures r == cwd
  {
    hide V, Inv, Slots, Unslashed, Rooted, Components, Resolve, Walk, Standing;
    ghost var s := part.S();
    var path := GetCwd(part, cwd);
    InvRooted(s);
    ZeroOpen(s);
    ComponentsClean(path);
    WalkResolves(Tables(s), s.nodes, s.par, 0, 0, Components(path));
    var parent, isRoot, ftype;
    CwdPath(Components(path), path);
    r, parent, isRoot, ftype := SearchFile(part, path);
  }

  lemma CwdPath(cs: seq<Name>, path: seq<byte>)
    requires path == Spell(cs)
    ensures cs != [] || path == [SLASH]
  {}
}
