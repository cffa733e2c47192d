/** The directory tree, read off the slot tables of its directories. */
module Tree {
  import opened Codec
  import opened Store
  import opened Directory

  function ParentOf(par: map<nat, (nat, nat)>, d: nat): nat {
    if d in par then par[d].0 else 0
  }

  /** Each inode lies one level below its parent, and the root at level 0. */
  ghost predicate Graded(par: map<nat, (nat, nat)>, depth: map<nat, nat>) {
    && 0 in depth && depth[0] == 0 && 0 !in par
    && forall i :: i in par ==> i in depth && par[i].0 in depth && depth[i] == depth[par[i].0] + 1
  }

  ghost predicate HasDepth(par: map<nat, (nat, nat)>) {
    exists depth :: Graded(par, depth)
  }

  /** Every entry beyond the dots names an inode in use, of the stated kind. */
  ghost predicate EntriesLink(t: map<nat, seq<DirEntry>>, par: map<nat, (nat, nat)>)
    requires forall d :: d in t ==> |t[d]| == 2940
  {
    forall d, c {:trigger t[d][c]} :: d in t && 2 <= c < 2940 && Live(t[d][c]) ==>
      && t[d][c].ino in par && par[t[d][c].ino] == (d, c)
      && t[d][c].ftype == if t[d][c].ino in t then FT_DIRECTORY else FT_REGULAR
  }

  /** Every inode but the root is named by the slot that `par` gives. */
  ghost predicate ParentsLink(t: map<nat, seq<DirEntry>>, par: map<nat, (nat, nat)>)
    requires forall d :: d in t ==> |t[d]| == 2940
  {
    forall i :: i in par ==>
      && par[i].0 in t && 2 <= par[i].1 < 2940
      && Live(t[par[i].0][par[i].1]) && t[par[i].0][par[i].1].ino == i
  }

  /** The dots name the directory and its parent. */
  ghost predicate DotsLink(t: map<nat, seq<DirEntry>>, par: map<nat, (nat, nat)>)
    requires forall d :: d in t ==> |t[d]| == 2940
  {
    forall d :: d in t ==>
      && t[d][0].ino == d && t[d][1].ino == ParentOf(par, d)
      && t[d][0].ftype == FT_DIRECTORY && t[d][1].ftype == FT_DIRECTORY
  }

  /** The entries and `par` are each other's inverse, so each inode but the root is named once. */
  ghost predicate Linked(t: map<nat, seq<DirEntry>>, nodes: set<nat>, par: map<nat, (nat, nat)>) {
    && 0 in t && 0 in nodes && t.Keys <= nodes && par.Keys == nodes - {0}
    && (forall d :: d in t ==> |t[d]| == 2940)
    && EntriesLink(t, par) && ParentsLink(t, par) && DotsLink(t, par)
  }

  ghost predicate TreeOk(t: map<nat, seq<DirEntry>>, nodes: set<nat>, par: map<nat, (nat, nat)>) {
    Linked(t, nodes, par) && HasDepth(par)
  }

  lemma DepthAdd(par: map<nat, (nat, nat)>, par': map<nat, (nat, nat)>, d: nat, i: nat, c: nat)
    requires HasDepth(par) && (d == 0 || d in par) && i !in par && i != 0 && par' == par[i := (d, c)]
    requires forall j :: j in par ==> par[j].0 != i
    ensures HasDepth(par')
  {
    var depth :| Graded(par, depth);
    assert Graded(par', depth[i := depth[d] + 1]);
  }

  lemma DepthDrop(par: map<nat, (nat, nat)>, i: nat)
    requires HasDepth(par)
    ensures HasDepth(par - {i})
  {
    var depth :| Graded(par, depth);
    assert Graded(par - {i}, depth);
  }

  /** No directory contains itself. */
  lemma NotOwnChild(t: map<nat, seq<DirEntry>>, nodes: set<nat>, par: map<nat, (nat, nat)>, i: nat)
    requires TreeOk(t, nodes, par) && i in par
    ensures par[i].0 != i
  {
    var depth :| Graded(par, depth);
    assert depth[i] == depth[par[i].0] + 1;
  }

  lemma LinkedDepth(t: map<nat, seq<DirEntry>>, nodes: set<nat>, par: map<nat, (nat, nat)>, d: nat, c: nat, i: nat)
    requires Linked(t, nodes, par) && HasDepth(par) && d in t && i !in nodes
    ensures HasDepth(par[i := (d, c)])
  {
    hide HasDepth;
    DepthAdd(par, par[i := (d, c)], d, i, c);
  }

  lemma EntriesAdd(t: map<nat, seq<DirEntry>>, par: map<nat, (nat, nat)>, d: nat, c: nat, e: DirEntry)
    requires forall x :: x in t ==> |t[x]| == 2940
    requires EntriesLink(t, par) && d in t && 2 <= c < 2940 && e.ino !in par && e.ino !in t && e.ftype == FT_REGULAR
    ensures EntriesLink(t[d := t[d][c := e]], par[e.ino := (d, c)])
  {
    var t', par' := t[d := t[d][c := e]], par[e.ino := (d, c)];
    forall x, y {:trigger t'[x][y]} | x in t' && 2 <= y < 2940 && Live(t'[x][y])
      ensures
        && t'[x][y].ino in par' && par'[t'[x][y].ino] == (x, y)
        && t'[x][y].ftype == if t'[x][y].ino in t' then FT_DIRECTORY else FT_REGULAR
    {
      if (x, y) != (d, c) {
        assert t'[x][y] == t[x][y];
      }
    }
  }

  lemma ParentsAdd(t: map<nat, seq<DirEntry>>, par: map<nat, (nat, nat)>, d: nat, c: nat, e: DirEntry)
    requires forall x :: x in t ==> |t[x]| == 2940
    requires ParentsLink(t, par) && d in t && 2 <= c < 2940 && !Live(t[d][c]) && Live(e)
    ensures ParentsLink(t[d := t[d][c := e]], par[e.ino := (d, c)])
  {
    var t', par' := t[d := t[d][c := e]], par[e.ino := (d, c)];
    forall i | i in par'
      ensures
        && par'[i].0 in t' && 2 <= par'[i].1 < 2940
        && Live(t'[par'[i].0][par'[i].1]) && t'[par'[i].0][par'[i].1].ino == i
    {
      if i != e.ino {
        assert par'[i] == par[i];
        assert t'[par[i].0][par[i].1] == t[par[i].0][par[i].1];
      }
    }
  }

  lemma DotsAdd(t: map<nat, seq<DirEntry>>, par: map<nat, (nat, nat)>, d: nat, c: nat, e: DirEntry)
    requires forall x :: x in t ==> |t[x]| == 2940
    requires DotsLink(t, par) && d in t && 2 <= c < 2940 && e.ino !in t
    ensures DotsLink(t[d := t[d][c := e]], par[e.ino := (d, c)])
  {
    var t' := t[d := t[d][c := e]];
    forall x | x in t'
      ensures t'[x][0] == t[x][0] && t'[x][1] == t[x][1]
    {}
  }

  /** A new file's entry. */
  lemma LinkAddFile(t: map<nat, seq<DirEntry>>, nodes: set<nat>, par: map<nat, (nat, nat)>, d: nat, c: nat, e: DirEntry)
    requires Linked(t, nodes, par) && d in t && 2 <= c < 2940 && !Live(t[d][c])
    requires e.ino !in nodes && e.ftype == FT_REGULAR
    ensures Linked(t[d := t[d][c := e]], nodes + {e.ino}, par[e.ino := (d, c)])
  {
    hide EntriesLink, ParentsLink, DotsLink;
    assert t[d := t[d][c := e]].Keys == t.Keys;
    EntriesAdd(t, par, d, c, e);
    ParentsAdd(t, par, d, c, e);
    DotsAdd(t, par, d, c, e);
  }

  lemma TreeAddFile(t: map<nat, seq<DirEntry>>, nodes: set<nat>, par: map<nat, (nat, nat)>, d: nat, c: nat, e: DirEntry)
    requires TreeOk(t, nodes, par) && d in t && 2 <= c < 2940 && !Live(t[d][c])
    requires e.ino !in nodes && e.ftype == FT_REGULAR
    ensures TreeOk(t[d := t[d][c := e]], nodes + {e.ino}, par[e.ino := (d, c)])
  {
    hide HasDepth;
    LinkAddFile(t, nodes, par, d, c, e);
    LinkedDepth(t, nodes, par, d, c, e.ino);
  }

  /** The slot table of a directory just made. */
  predicate Newborn(u: seq<DirEntry>, self: nat, up: nat) {
    && |u| == 2940 && u[0] == DirEntry(DOT, self, FT_DIRECTORY) && u[1] == DirEntry(DOTDOT, up, FT_DIRECTORY)
    && forall c :: 2 <= c < 2940 ==> u[c] == DEAD
  }

  lemma EntriesAddDir(t: map<nat, seq<DirEntry>>, par: map<nat, (nat, nat)>, d: nat, c: nat, e: DirEntry,
                      u: seq<DirEntry>)
    requires forall x :: x in t ==> |t[x]| == 2940
    requires EntriesLink(t, par) && d in t && 2 <= c < 2940 && e.ino !in par && e.ino !in t && e.ftype == FT_DIRECTORY
    requires Newborn(u, e.ino, d)
    ensures EntriesLink(t[d := t[d][c := e]][e.ino := u], par[e.ino := (d, c)])
  {
    var t', par' := t[d := t[d][c := e]][e.ino := u], par[e.ino := (d, c)];
    forall x, y {:trigger t'[x][y]} | x in t' && 2 <= y < 2940 && Live(t'[x][y])
      ensures
        && t'[x][y].ino in par' && par'[t'[x][y].ino] == (x, y)
        && t'[x][y].ftype == if t'[x][y].ino in t' then FT_DIRECTORY else FT_REGULAR
    {
      if (x, y) != (d, c) {
        assert x != e.ino;
        assert t'[x][y] == t[x][y];
      }
    }
  }

  lemma ParentsAddDir(t: map<nat, seq<DirEntry>>, par: map<nat, (nat, nat)>, i: nat, u: seq<DirEntry>)
    requires |u| == 2940 && forall x :: x in t ==> |t[x]| == 2940
    requires ParentsLink(t, par) && i !in t
    ensures ParentsLink(t[i := u], par)
  {}

  lemma DotsAddDir(t: map<nat, seq<DirEntry>>, par: map<nat, (nat, nat)>, d: nat, i: nat, u: seq<DirEntry>)
    requires forall x :: x in t ==> |t[x]| == 2940
    requires DotsLink(t, par) && i in par && par[i].0 == d && Newborn(u, i, d)
    ensures DotsLink(t[i := u], par)
  {}

  lemma LinkAddDir(t: map<nat, seq<DirEntry>>, nodes: set<nat>, par: map<nat, (nat, nat)>, d: nat, c: nat, e: DirEntry,
                   u: seq<DirEntry>)
    requires Linked(t, nodes, par) && d in t && 2 <= c < 2940 && !Live(t[d][c])
    requires e.ino !in nodes && e.ftype == FT_DIRECTORY && Newborn(u, e.ino, d)
    ensures Linked(t[d := t[d][c := e]][e.ino := u], nodes + {e.ino}, par[e.ino := (d, c)])
  {
    hide EntriesLink, ParentsLink, DotsLink;
    var t1 := t[d := t[d][c := e]];
    assert t1.Keys == t.Keys && t1[e.ino := u].Keys == t.Keys + {e.ino};
    EntriesAddDir(t, par, d, c, e, u);
    ParentsAdd(t, par, d, c, e);
    ParentsAddDir(t1, par[e.ino := (d, c)], e.ino, u);
    DotsAdd(t, par, d, c, e);
    DotsAddDir(t1, par[e.ino := (d, c)], d, e.ino, u);
  }

  lemma TreeAddDir(t: map<nat, seq<DirEntry>>, nodes: set<nat>, par: map<nat, (nat, nat)>, d: nat, c: nat, e: DirEntry,
                   u: seq<DirEntry>)
    requires TreeOk(t, nodes, par) && d in t && 2 <= c < 2940 && !Live(t[d][c])
    requires e.ino !in nodes && e.ftype == FT_DIRECTORY && Newborn(u, e.ino, d)
    ensures TreeOk(t[d := t[d][c := e]][e.ino := u], nodes + {e.ino}, par[e.ino := (d, c)])
  {
    hide HasDepth;
    LinkAddDir(t, nodes, par, d, c, e, u);
    LinkedDepth(t, nodes, par, d, c, e.ino);
  }

  lemma EntriesDrop(t: map<nat, seq<DirEntry>>, par: map<nat, (nat, nat)>, d: nat, c: nat, i: nat)
    requires forall x :: x in t ==> |t[x]| == 2940
    requires EntriesLink(t, par) && d in t && 2 <= c < 2940 && i in par && par[i] == (d, c) && i != d
    ensures EntriesLink(t[d := t[d][c := DEAD]] - {i}, par - {i})
  {
    var t', par' := t[d := t[d][c := DEAD]] - {i}, par - {i};
    forall x, y {:trigger t'[x][y]} | x in t' && 2 <= y < 2940 && Live(t'[x][y])
      ensures
        && t'[x][y].ino in par' && par'[t'[x][y].ino] == (x, y)
        && t'[x][y].ftype == if t'[x][y].ino in t' then FT_DIRECTORY else FT_REGULAR
    {
      assert t'[x][y] == t[x][y];
    }
  }

  lemma ParentsDrop(t: map<nat, seq<DirEntry>>, par: map<nat, (nat, nat)>, d: nat, c: nat, i: nat)
    requires forall x :: x in t ==> |t[x]| == 2940
    requires ParentsLink(t, par) && d in t && 2 <= c < 2940 && i in par && par[i] == (d, c) && i != d
    requires forall j :: j in par ==> par[j].0 != i
    ensures ParentsLink(t[d := t[d][c := DEAD]] - {i}, par - {i})
  {
    var t', par' := t[d := t[d][c := DEAD]] - {i}, par - {i};
    forall j | j in par'
      ensures
        && par'[j].0 in t' && 2 <= par'[j].1 < 2940
        && Live(t'[par'[j].0][par'[j].1]) && t'[par'[j].0][par'[j].1].ino == j
    {
      assert t[par[j].0][par[j].1].ino == j;
      assert t'[par[j].0][par[j].1] == t[par[j].0][par[j].1];
    }
  }

  lemma DotsDrop(t: map<nat, seq<DirEntry>>, par: map<nat, (nat, nat)>, d: nat, c: nat, i: nat)
    requires forall x :: x in t ==> |t[x]| == 2940
    requires DotsLink(t, par) && d in t && 2 <= c < 2940
    ensures DotsLink(t[d := t[d][c := DEAD]] - {i}, par - {i})
  {
    var t' := t[d := t[d][c := DEAD]] - {i};
    forall x | x in t'
      ensures t'[x][0] == t[x][0] && t'[x][1] == t[x][1]
    {}
  }

  /** An inode whose slots beyond the dots are dead is nobody's parent, and not its own. */
  lemma Childless(t: map<nat, seq<DirEntry>>, par: map<nat, (nat, nat)>, d: nat, c: nat)
    requires forall x :: x in t ==> |t[x]| == 2940
    requires ParentsLink(t, par) && d in t && 2 <= c < 2940 && Live(t[d][c])
    requires t[d][c].ino in t ==> forall x :: 2 <= x < 2940 ==> !Live(t[t[d][c].ino][x])
    ensures t[d][c].ino != d && forall j :: j in par ==> par[j].0 != t[d][c].ino
  {}

  /** Removing the entry of a file, or of a directory with no entries of its own. */
  lemma LinkRemove(t: map<nat, seq<DirEntry>>, nodes: set<nat>, par: map<nat, (nat, nat)>, d: nat, c: nat)
    requires Linked(t, nodes, par) && d in t && 2 <= c < 2940 && Live(t[d][c])
    requires t[d][c].ino in t ==> forall x :: 2 <= x < 2940 ==> !Live(t[t[d][c].ino][x])
    ensures var i := t[d][c].ino;
            i != d && i != 0 && Linked(t[d := t[d][c := DEAD]] - {i}, nodes - {i}, par - {i})
  {
    hide ParentsLink, DotsLink;
    var i := t[d][c].ino;
    assert i in par && par[i] == (d, c);
    Childless(t, par, d, c);
    EntriesDrop(t, par, d, c, i);
    ParentsDrop(t, par, d, c, i);
    DotsDrop(t, par, d, c, i);
  }

  lemma TreeRemove(t: map<nat, seq<DirEntry>>, nodes: set<nat>, par: map<nat, (nat, nat)>, d: nat, c: nat)
    requires TreeOk(t, nodes, par) && d in t && 2 <= c < 2940 && Live(t[d][c])
    requires t[d][c].ino in t ==> forall x :: 2 <= x < 2940 ==> !Live(t[t[d][c].ino][x])
    ensures var i := t[d][c].ino;
            i != d && i != 0 && TreeOk(t[d := t[d][c := DEAD]] - {i}, nodes - {i}, par - {i})
  {
    hide HasDepth;
    LinkRemove(t, nodes, par, d, c);
    DepthDrop(par, t[d][c].ino);
  }

  /** A directory's children have distinct inode numbers. */
  lemma ChildrenDistinct(t: map<nat, seq<DirEntry>>, nodes: set<nat>, par: map<nat, (nat, nat)>, d: nat, a: nat, b: nat)
    requires TreeOk(t, nodes, par) && d in t && 2 <= a < b < 2940 && Live(t[d][a]) && Live(t[d][b])
    ensures t[d][a].ino != t[d][b].ino && t[d][a].ino in nodes && t[d][a].ino != 0
  {
    assert par[t[d][a].ino] == (d, a) && par[t[d][b].ino] == (d, b);
  }
}
