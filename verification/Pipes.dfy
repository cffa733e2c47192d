/** The descriptors of one pipe across sys_pipe, sys_fork, sys_close, sys_exit and
    sys_fd_redirect: fd_pos counts them, and the ring's page goes with the last. */
module Pipes {
  import opened Lists
  import opened Counting
  import opened FdTables

  /** The descriptors 3 to 7 of one table that lead to slot g. */
  function Own(t: FdTable, g: int): (s: set<nat>) {
    set fd: nat | 3 <= fd < 8 && t[fd] == g
  }

  /** All of them, over all processes. */
  function Descriptors(tables: map<nat, FdTable>, g: int): set<(nat, nat)> {
    set p, fd | p in tables && fd in Own(tables[p], g) :: (p, fd)
  }

  lemma OneMore(tables: map<nat, FdTable>, g: int, p: nat, fd: nat, t: FdTable)
    requires p in tables && 3 <= fd < 8 && tables[p][fd] != g && t == tables[p][fd := g]
    ensures |Descriptors(tables[p := t], g)| == |Descriptors(tables, g)| + 1
  {
    assert Own(t, g) == Own(tables[p], g) + {fd};
    hide Own;
    forall q: nat, k: nat
      ensures (q, k) in Descriptors(tables[p := t], g) <==> (q, k) in Descriptors(tables, g) + {(p, fd)}
    {}
    assert Descriptors(tables[p := t], g) == Descriptors(tables, g) + {(p, fd)};
    assert fd !in Own(tables[p], g) by {
      OwnIs(tables[p], g, fd);
    }
  }

  lemma OwnIs(t: FdTable, g: int, fd: nat)
    ensures fd in Own(t, g) <==> 3 <= fd < 8 && t[fd] == g
  {}

  lemma OneLess(tables: map<nat, FdTable>, g: int, p: nat, fd: nat, x: int)
    requires p in tables && 3 <= fd < 8 && tables[p][fd] == g && x != g
    ensures |Descriptors(tables, g)| == |Descriptors(tables[p := tables[p][fd := x]], g)| + 1
  {
    var t' := tables[p := tables[p][fd := x]];
    assert Descriptors(t', g) == Descriptors(tables, g) - {(p, fd)};
    assert (p, fd) in Descriptors(tables, g);
  }

  lemma SameElsewhere(tables: map<nat, FdTable>, g: int, p: nat, t: FdTable)
    requires p in tables && Own(t, g) == Own(tables[p], g)
    ensures Descriptors(tables[p := t], g) == Descriptors(tables, g)
  {}

  function Pairs(p: nat, s: set<nat>): set<(nat, nat)> {
    set fd: nat | fd in s :: (p, fd)
  }

  lemma {:induction false} PairsOf(p: nat, s: set<nat>)
    ensures |Pairs(p, s)| == |s|
  {
    if s != {} {
      var x :| x in s;
      PairsOf(p, s - {x});
      assert Pairs(p, s) == Pairs(p, s - {x}) + {(p, x)};
      assert (p, x) !in Pairs(p, s - {x});
    } else {
      assert Pairs(p, s) == {};
    }
  }

  lemma DescriptorsMore(tables: map<nat, FdTable>, g: int, c: nat, t: FdTable)
    requires c !in tables
    ensures Descriptors(tables[c := t], g) == Descriptors(tables, g) + Pairs(c, Own(t, g))
  {
    hide Own;
    forall p: nat, fd: nat
      ensures (p, fd) in Descriptors(tables[c := t], g) <==> (p, fd) in Descriptors(tables, g) + Pairs(c, Own(t, g))
    {}
  }

  /** A process more, or one less. */
  lemma TableMore(tables: map<nat, FdTable>, g: int, c: nat, t: FdTable)
    requires c !in tables
    ensures |Descriptors(tables[c := t], g)| == |Descriptors(tables, g)| + |Own(t, g)|
  {
    var more := Pairs(c, Own(t, g));
    PairsOf(c, Own(t, g));
    DescriptorsMore(tables, g, c, t);
    assert Descriptors(tables, g) !! more;
  }

  /** The descriptors below k that lead to g. */
  function Below(t: FdTable, g: int, k: nat): set<nat>
    requires k <= 8
  {
    set fd: nat | 3 <= fd < k && t[fd] == g
  }

  lemma BelowStep(t: FdTable, g: int, k: nat)
    requires 3 <= k < 8
    ensures |Below(t, g, k + 1)| == |Below(t, g, k)| + if t[k] == g then 1 else 0
    ensures Below(t, g, 3) == {} && Below(t, g, 8) == Own(t, g)
  {
    assert Below(t, g, k + 1) == if t[k] == g then Below(t, g, k) + {k} else Below(t, g, k);
  }

  /** Slot g of file_table while it is a pipe: fd_pos, and whether its page is there; and the
      descriptor tables of all live processes. */
  class Pipe {
    const slot: int
    var fdPos: nat
    var page: bool
    var tables: map<nat, FdTable>

    /** The count is the number of descriptors, and the page is there as long as there is one. */
    predicate Counted()
      reads this
    {
      slot >= 0 && fdPos == |Descriptors(tables, slot)| && (page <==> fdPos > 0)
    }

    /** pcb_fd_install: the lowest free descriptor from 3 on. */
    method Install(p: nat) returns (fd: int)
      requires p in tables
      modifies this`tables
      ensures fd == -1 <==> !HasFreeFd(old(tables)[p])
      ensures fd == -1 ==> tables == old(tables)
      ensures fd != -1 ==> LowestFreeFd(old(tables)[p], fd) && tables == old(tables)[p := old(tables)[p][fd := slot]]
    {
      var t;
      fd, t := PcbFdInstall(tables[p], slot);
      if fd != -1 {
        tables := tables[p := t];
      }
    }

    /** sys_pipe on a free slot. The count starts at 2 whatever pcb_fd_install says, so it is right
        exactly when both descriptors were there to get. */
    method SysPipe(p: nat) returns (a: int, b: int)
      requires slot >= 0 && p in tables && |Descriptors(tables, slot)| == 0 && !page
      modifies this
      ensures Counted() <==> a != -1 && b != -1
      ensures page && fdPos == 2 && -1 <= a < 8 && -1 <= b < 8 && (a != b || a == -1)
      ensures var t := old(tables)[p];
              && (a == -1 <==> !HasFreeFd(t)) && (a != -1 ==> LowestFreeFd(t, a))
              && var t' := if 3 <= a < 8 then t[a := slot] else t;
                 && (b == -1 <==> !HasFreeFd(t')) && (b != -1 ==> LowestFreeFd(t', b))
                 && tables == old(tables)[p := if 3 <= b < 8 then t'[b := slot] else t']
      ensures a == -1 ==> b == -1 && tables == old(tables)
      ensures forall q, fd :: q in old(tables) && 0 <= fd < 8 && (q != p || fd < 3 || old(tables)[q][fd] != -1) ==>
                q in tables && tables[q][fd] == old(tables)[q][fd]
    {
      page := true;
      fdPos := 2;
      ghost var t0 := tables;
      a := Install(p);
      ghost var t1 := tables;
      if a != -1 {
        OneMore(t0, slot, p, a, t1[p]);
      }
      b := Install(p);
      if b != -1 {
        OneMore(t1, slot, p, b, tables[p]);
      }
    }

    /** The descriptor part of sys_fork. */
    method Fork(p: nat, c: nat)
      requires Counted() && p in tables && c !in tables
      modifies this
      ensures Counted() && tables == old(tables)[c := old(tables)[p]] && (page <==> old(page))
    {
      var t := tables[p];
      tables := tables[c := t];
      TableMore(old(tables), slot, c, t);
      var fd := 3;
      BelowStep(t, slot, 3);
      while fd < 8
        invariant 3 <= fd <= 8 && fdPos == old(fdPos) + |Below(t, slot, fd)|
        invariant tables == old(tables)[c := t] && page == old(page)
      {
        BelowStep(t, slot, fd);
        if t[fd] == slot {
          fdPos := fdPos + 1;
        }
        fd := fd + 1;
      }
      SomeOwn(old(tables), p, slot);
    }

    static lemma SomeOwn(tables: map<nat, FdTable>, p: nat, g: int)
      requires p in tables
      ensures |Own(tables[p], g)| > 0 ==> |Descriptors(tables, g)| > 0
    {
      if |Own(tables[p], g)| > 0 {
        var fd :| fd in Own(tables[p], g);
        assert (p, fd) in Descriptors(tables, g);
      }
    }

    /** sys_close of a descriptor that leads to the pipe: the page is freed with the last. */
    method Close(p: nat, fd: nat)
      requires Counted() && p in tables && 3 <= fd < 8 && tables[p][fd] == slot
      modifies this
      ensures Counted() && tables == old(tables)[p := old(tables)[p][fd := -1]] && old(page)
      ensures page <==> Descriptors(tables, slot) != {}
    {
      OneLess(tables, slot, p, fd, -1);
      fdPos := fdPos - 1;
      if fdPos == 0 {
        page := false;
      }
      tables := tables[p := tables[p][fd := -1]];
    }

    /** The descriptor loop of sys_exit's release: the process and its descriptors go. */
    method Exit(p: nat)
      requires Counted() && p in tables
      modifies this
      ensures Counted() && tables == old(tables) - {p}
      ensures page <==> Descriptors(tables, slot) != {}
    {
      var t := tables[p];
      ghost var rest := tables - {p};
      assert tables == rest[p := t];
      TableMore(rest, slot, p, t);
      var fd := 3;
      BelowStep(t, slot, 3);
      while fd < 8
        invariant 3 <= fd <= 8 && tables == old(tables) && fdPos + |Below(t, slot, fd)| == old(fdPos)
        invariant |Below(t, slot, fd)| <= |Own(t, slot)| && (page <==> fdPos > 0)
      {
        BelowStep(t, slot, fd);
        BelowFits(t, slot, fd + 1);
        if t[fd] == slot {
          fdPos := fdPos - 1;
          if fdPos == 0 {
            page := false;
          }
        }
        fd := fd + 1;
      }
      tables := tables - {p};
    }

    static lemma BelowFits(t: FdTable, g: int, k: nat)
      requires k <= 8
      ensures |Below(t, g, k)| <= |Own(t, g)|
    {
      SubsetSize(Below(t, g, k), Own(t, g));
    }

    /** sys_fd_redirect. It counts nothing, so the count stays right exactly when the old descriptor
        is a standard one, or led to the pipe before if and only if it does afterwards. */
    method Redirect(p: nat, from: nat, to: nat)
      requires Counted() && p in tables && from < 8 && to < 8
      modifies this`tables
      ensures tables == old(tables)[p := old(tables)[p][from := if to < 3 then to else old(tables)[p][to]]]
      ensures Counted() <==> from < 3 || (old(tables)[p][from] == slot <==> tables[p][from] == slot)
    {
      var t := tables[p];
      var x := if to < 3 then to else t[to];
      tables := tables[p := t[from := x]];
      if from < 3 || (t[from] == slot && x == slot) || (t[from] != slot && x != slot) {
        assert Own(t[from := x], slot) == Own(t, slot);
        SameElsewhere(old(tables), slot, p, t[from := x]);
      } else if t[from] == slot {
        OneLess(old(tables), slot, p, from, x);
      } else {
        OneMore(old(tables), slot, p, from, t[from := x]);
      }
    }
  }

  /** sys_pipe and the closing of both ends: each descriptor of each process leads where it led before, and
      the page is gone. */
  method OpenAndClose(pipe: Pipe, p: nat) returns (ok: bool)
    requires pipe.slot >= 0 && p in pipe.tables && |Descriptors(pipe.tables, pipe.slot)| == 0 && !pipe.page
    modifies pipe
    ensures ok <==> exists i, j :: 3 <= i < j < 8 && old(pipe.tables)[p][i] == -1 && old(pipe.tables)[p][j] == -1
    ensures ok ==> pipe.tables == old(pipe.tables) && !pipe.page && pipe.Counted()
  {
    ghost var t := pipe.tables[p];
    var a, b := pipe.SysPipe(p);
    ok := a != -1 && b != -1;
    if ok {
      assert t[a] == -1 && t[b] == -1;
      pipe.Close(p, a);
      pipe.Close(p, b);
      assert t[a := pipe.slot][b := pipe.slot][a := -1][b := -1] == t;
    }
  }
}
