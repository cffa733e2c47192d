/** kernel/memory.c, userprog/fork.c and userprog/wait_exit.c: frames, page tables and virtual page
    bitmaps of several address spaces. */
module Paging {
  import opened Codec
  import opened Bitmap
  import opened Counting

  /** An address space: its present page tables by directory index, its present pages by page
      number, and the bitmap of its pages from page `start` on. */
  datatype Space = Space(pde: map<nat, nat>, pte: map<nat, nat>, start: nat, bits: seq<bool>)

  /** What a frame is used for. */
  datatype Ref = Page(sp: nat, v: nat) | Table(sp: nat, i: nat)

  /** The two pools with their first frames, the address spaces (0 is the kernel's), the user of
      each frame, and the frames' contents. */
  datatype State = State(kbits: seq<bool>, ubits: seq<bool>, kStart: nat, uStart: nat,
                         spaces: map<nat, Space>, own: map<nat, Ref>, data: map<nat, seq<byte>>)

  const KERNEL := 0

  /** The pool bit of frame f. */
  predicate Bit(s: State, f: nat) {
    if f >= s.uStart then f - s.uStart < |s.ubits| && s.ubits[f - s.uStart]
    else s.kStart <= f && f - s.kStart < |s.kbits| && s.kbits[f - s.kStart]
  }

  /** Present entries and the users of frames are each other's inverse. */
  ghost predicate Mapped(s: State) {
    && (forall sp, v {:trigger s.spaces[sp].pte[v]} :: sp in s.spaces && v in s.spaces[sp].pte ==>
          s.spaces[sp].pte[v] in s.own && s.own[s.spaces[sp].pte[v]] == Page(sp, v))
    && (forall sp, i {:trigger s.spaces[sp].pde[i]} :: sp in s.spaces && i in s.spaces[sp].pde ==>
          s.spaces[sp].pde[i] in s.own && s.own[s.spaces[sp].pde[i]] == Table(sp, i))
    && (forall f {:trigger s.own[f]} :: f in s.own ==> UserOk(s, f))
  }

  /** The entry that frame f is used for points to it. */
  ghost predicate UserOk(s: State, f: nat)
    requires f in s.own
  {
    s.own[f].sp in s.spaces
    && match s.own[f]
       case Page(sp, v) => v in s.spaces[sp].pte && s.spaces[sp].pte[v] == f
       case Table(sp, i) => i in s.spaces[sp].pde && s.spaces[sp].pde[i] == f
  }

  /** Frames in use are marked; tables and kernel pages come from the kernel's pool, the pages of
      processes from the user pool. */
  ghost predicate PoolsOk(s: State) {
    && s.kStart + |s.kbits| <= s.uStart
    && forall f {:trigger s.own[f]} :: f in s.own ==>
         Bit(s, f) && (f >= s.uStart <==> s.own[f].Page? && s.own[f].sp != KERNEL)
  }

  /** A present page has its table, and its virtual bit is set. */
  ghost predicate PageOk(s: State, sp: nat, v: nat)
    requires sp in s.spaces
  {
    var x := s.spaces[sp];
    v / 1024 in x.pde && x.start <= v < x.start + |x.bits| && x.bits[v - x.start]
  }

  ghost predicate SpacesOk(s: State) {
    && KERNEL in s.spaces
    && forall sp, v {:trigger PageOk(s, sp, v)} :: sp in s.spaces && v in s.spaces[sp].pte ==> PageOk(s, sp, v)
  }

  ghost predicate Inv(s: State) {
    Mapped(s) && PoolsOk(s) && SpacesOk(s)
  }

  /** The reading of the invariant: no frame is mapped twice, by whatever spaces, nor is it also a page
      table, and it is marked used. */
  lemma Injective(s: State, sp: nat, v: nat, sq: nat, w: nat)
    requires Inv(s) && sp in s.spaces && sq in s.spaces && v in s.spaces[sp].pte
    ensures Bit(s, s.spaces[sp].pte[v])
    ensures w in s.spaces[sq].pte && s.spaces[sq].pte[w] == s.spaces[sp].pte[v] ==> sq == sp && w == v
    ensures w in s.spaces[sq].pde ==> s.spaces[sq].pde[w] != s.spaces[sp].pte[v]
  {
    var f := s.spaces[sp].pte[v];
    assert s.own[f] == Page(sp, v);
    if w in s.spaces[sq].pte {
      assert s.own[s.spaces[sq].pte[w]] == Page(sq, w);
    }
    if w in s.spaces[sq].pde {
      assert s.own[s.spaces[sq].pde[w]] == Table(sq, w);
    }
  }

  // ---- one reference more, one less ----

  function PutPage(s: State, sp: nat, v: nat, f: nat): State
    requires sp in s.spaces
  {
    s.(spaces := s.spaces[sp := s.spaces[sp].(pte := s.spaces[sp].pte[v := f])], own := s.own[f := Page(sp, v)])
  }

  function PutTable(s: State, sp: nat, i: nat, f: nat): State
    requires sp in s.spaces
  {
    s.(spaces := s.spaces[sp := s.spaces[sp].(pde := s.spaces[sp].pde[i := f])], own := s.own[f := Table(sp, i)])
  }

  function DropPage(s: State, sp: nat, v: nat): State
    requires sp in s.spaces && v in s.spaces[sp].pte
  {
    s.(spaces := s.spaces[sp := s.spaces[sp].(pte := s.spaces[sp].pte - {v})], own := s.own - {s.spaces[sp].pte[v]})
  }

  /** The frame that palloc takes next from the pool of space sp, and the pool without it. */
  function NextFrame(s: State, user: bool): int {
    FirstClear(if user then s.ubits else s.kbits)
  }

  function Took(s: State, user: bool): State
    requires NextFrame(s, user) != -1
  {
    if user then s.(ubits := s.ubits[NextFrame(s, user) := true]) else s.(kbits := s.kbits[NextFrame(s, user) := true])
  }

  function FrameOf(s: State, user: bool): nat
    requires NextFrame(s, user) != -1
  {
    NextFrame(s, user) + if user then s.uStart else s.kStart
  }

  /** palloc: a frame that was not marked, and so has no user, is marked. */
  lemma TookFacts(s: State, user: bool)
    requires PoolsOk(s) && NextFrame(s, user) != -1
    ensures var f := FrameOf(s, user);
            && f !in s.own && !Bit(s, f) && (f >= s.uStart <==> user)
            && forall g :: Bit(Took(s, user), g) == (Bit(s, g) || g == f)
    ensures PoolsOk(Took(s, user))
  {
    var f := FrameOf(s, user);
    assert !Bit(s, f);
    forall g
      ensures Bit(Took(s, user), g) == (Bit(s, g) || g == f)
    {}
  }

  lemma PutPageKeeps(s: State, sp: nat, v: nat, f: nat)
    requires Inv(s) && sp in s.spaces && v !in s.spaces[sp].pte && f !in s.own && Bit(s, f)
    requires (f >= s.uStart <==> sp != KERNEL) && v / 1024 in s.spaces[sp].pde
    requires s.spaces[sp].start <= v < s.spaces[sp].start + |s.spaces[sp].bits|
    requires s.spaces[sp].bits[v - s.spaces[sp].start]
    ensures Inv(PutPage(s, sp, v, f))
  {
    hide Mapped, PoolsOk, SpacesOk;
    PutPageMapped(s, sp, v, f);
    PoolsMore(s, PutPage(s, sp, v, f), f);
    PutPageSpaces(s, sp, v, f);
  }

  /** A marked frame gets a user of the right kind. */
  lemma PoolsMore(s: State, s': State, f: nat)
    requires PoolsOk(s) && s' == s.(spaces := s'.spaces, own := s'.own) && f in s'.own
    requires s'.own == s.own[f := s'.own[f]]
    requires Bit(s, f) && (f >= s.uStart <==> s'.own[f].Page? && s'.own[f].sp != KERNEL)
    ensures PoolsOk(s')
  {
    assert forall g :: Bit(s', g) == Bit(s, g);
    forall g {:trigger s'.own[g]} | g in s'.own
      ensures Bit(s', g) && (g >= s'.uStart <==> s'.own[g].Page? && s'.own[g].sp != KERNEL)
    {
      if g != f {
        assert s'.own[g] == s.own[g];
      }
    }
  }

  lemma PutPageSpaces(s: State, sp: nat, v: nat, f: nat)
    requires SpacesOk(s) && sp in s.spaces && v / 1024 in s.spaces[sp].pde
    requires s.spaces[sp].start <= v < s.spaces[sp].start + |s.spaces[sp].bits|
    requires s.spaces[sp].bits[v - s.spaces[sp].start]
    ensures SpacesOk(PutPage(s, sp, v, f))
  {
    var s' := PutPage(s, sp, v, f);
    forall sq, w | sq in s'.spaces && w in s'.spaces[sq].pte
      ensures PageOk(s', sq, w)
    {
      if (sq, w) != (sp, v) {
        assert PageOk(s, sq, w);
      }
    }
  }

  lemma PutPageMapped(s: State, sp: nat, v: nat, f: nat)
    requires Mapped(s) && sp in s.spaces && v !in s.spaces[sp].pte && f !in s.own
    ensures Mapped(PutPage(s, sp, v, f))
  {
    var s' := PutPage(s, sp, v, f);
    forall sq, w {:trigger s'.spaces[sq].pte[w]} | sq in s'.spaces && w in s'.spaces[sq].pte
      ensures s'.spaces[sq].pte[w] in s'.own && s'.own[s'.spaces[sq].pte[w]] == Page(sq, w)
    {
      if (sq, w) != (sp, v) {
        assert s'.spaces[sq].pte[w] == s.spaces[sq].pte[w];
      }
    }
    forall sq, i {:trigger s'.spaces[sq].pde[i]} | sq in s'.spaces && i in s'.spaces[sq].pde
      ensures s'.spaces[sq].pde[i] in s'.own && s'.own[s'.spaces[sq].pde[i]] == Table(sq, i)
    {
      assert s'.spaces[sq].pde[i] == s.spaces[sq].pde[i];
    }
  }

  lemma PutTableKeeps(s: State, sp: nat, i: nat, f: nat)
    requires Inv(s) && sp in s.spaces && i !in s.spaces[sp].pde && f !in s.own && Bit(s, f) && f < s.uStart
    ensures Inv(PutTable(s, sp, i, f))
  {
    hide Mapped, PoolsOk, SpacesOk;
    PutTableMapped(s, sp, i, f);
    PoolsMore(s, PutTable(s, sp, i, f), f);
    PutTableSpaces(s, sp, i, f);
  }

  lemma PutTableSpaces(s: State, sp: nat, i: nat, f: nat)
    requires SpacesOk(s) && sp in s.spaces
    ensures SpacesOk(PutTable(s, sp, i, f))
  {
    var s' := PutTable(s, sp, i, f);
    forall sq, w | sq in s'.spaces && w in s'.spaces[sq].pte
      ensures PageOk(s', sq, w)
    {
      assert PageOk(s, sq, w);
    }
  }

  lemma PutTableMapped(s: State, sp: nat, i: nat, f: nat)
    requires Mapped(s) && sp in s.spaces && i !in s.spaces[sp].pde && f !in s.own
    ensures Mapped(PutTable(s, sp, i, f))
  {
    var s' := PutTable(s, sp, i, f);
    forall sq, w {:trigger s'.spaces[sq].pte[w]} | sq in s'.spaces && w in s'.spaces[sq].pte
      ensures s'.spaces[sq].pte[w] in s'.own && s'.own[s'.spaces[sq].pte[w]] == Page(sq, w)
    {
      assert s'.spaces[sq].pte[w] == s.spaces[sq].pte[w];
    }
    forall sq, j {:trigger s'.spaces[sq].pde[j]} | sq in s'.spaces && j in s'.spaces[sq].pde
      ensures s'.spaces[sq].pde[j] in s'.own && s'.own[s'.spaces[sq].pde[j]] == Table(sq, j)
    {
      if (sq, j) != (sp, i) {
        assert s'.spaces[sq].pde[j] == s.spaces[sq].pde[j];
      }
    }
  }

  lemma DropPageKeeps(s: State, sp: nat, v: nat)
    requires Inv(s) && sp in s.spaces && v in s.spaces[sp].pte
    ensures Inv(DropPage(s, sp, v))
  {
    hide Mapped, PoolsOk, SpacesOk;
    DropPageMapped(s, sp, v);
    PoolsLess(s, DropPage(s, sp, v));
    DropPageSpaces(s, sp, v);
  }

  lemma DropPageMapped(s: State, sp: nat, v: nat)
    requires Mapped(s) && sp in s.spaces && v in s.spaces[sp].pte
    ensures Mapped(DropPage(s, sp, v))
  {
    var s' := DropPage(s, sp, v);
    var f := s.spaces[sp].pte[v];
    assert s.own[f] == Page(sp, v);
    forall sq, w {:trigger s'.spaces[sq].pte[w]} | sq in s'.spaces && w in s'.spaces[sq].pte
      ensures s'.spaces[sq].pte[w] in s'.own && s'.own[s'.spaces[sq].pte[w]] == Page(sq, w)
    {
      assert s'.spaces[sq].pte[w] == s.spaces[sq].pte[w];
    }
    forall sq, i {:trigger s'.spaces[sq].pde[i]} | sq in s'.spaces && i in s'.spaces[sq].pde
      ensures s'.spaces[sq].pde[i] in s'.own && s'.own[s'.spaces[sq].pde[i]] == Table(sq, i)
    {
      assert s'.spaces[sq].pde[i] == s.spaces[sq].pde[i];
    }
    forall g {:trigger s'.own[g]} | g in s'.own
      ensures UserOk(s', g)
    {
      assert s'.own[g] == s.own[g];
      assert UserOk(s, g);
    }
  }

  lemma PoolsLess(s: State, s': State)
    requires PoolsOk(s) && s' == s.(spaces := s'.spaces, own := s'.own) && s'.own.Keys <= s.own.Keys
    requires forall g :: g in s'.own ==> s'.own[g] == s.own[g]
    ensures PoolsOk(s')
  {
    assert forall g :: Bit(s', g) == Bit(s, g);
  }

  lemma DropPageSpaces(s: State, sp: nat, v: nat)
    requires SpacesOk(s) && sp in s.spaces && v in s.spaces[sp].pte
    ensures SpacesOk(DropPage(s, sp, v))
  {
    var s' := DropPage(s, sp, v);
    forall sq, w | sq in s'.spaces && w in s'.spaces[sq].pte
      ensures PageOk(s', sq, w)
    {
      assert PageOk(s, sq, w);
    }
  }

  // ---- mapping a page, with its table ----

  /** The page table for v is there, or a frame of the kernel's pool becomes it. */
  function WithTable(s: State, sp: nat, i: nat): State
    requires sp in s.spaces && (i in s.spaces[sp].pde || NextFrame(s, false) != -1)
  {
    if i in s.spaces[sp].pde then s else PutTable(Took(s, false), sp, i, FrameOf(s, false))
  }

  /** Space sp got the pages `vs`, and page tables may have come; the other spaces are the same. */
  ghost predicate GrownSpace(s: State, s': State, sp: nat, vs: set<nat>) {
    && s' == s.(kbits := s'.kbits, ubits := s'.ubits, spaces := s'.spaces, own := s'.own)
    && |s'.kbits| == |s.kbits| && |s'.ubits| == |s.ubits|
    && sp in s.spaces && sp in s'.spaces && s'.spaces == s.spaces[sp := s'.spaces[sp]]
    && s'.spaces[sp] == s.spaces[sp].(pde := s'.spaces[sp].pde, pte := s'.spaces[sp].pte)
    && s'.spaces[sp].pte.Keys == s.spaces[sp].pte.Keys + vs && vs !! s.spaces[sp].pte.Keys
    && (forall v :: v in s.spaces[sp].pte ==> s'.spaces[sp].pte[v] == s.spaces[sp].pte[v])
    && (forall i :: i in s.spaces[sp].pde ==> i in s'.spaces[sp].pde && s'.spaces[sp].pde[i] == s.spaces[sp].pde[i])
  }

  /** The frames that have a user now were not marked, and nothing else is marked now; the new users
      are the pages `vs` and new tables. */
  ghost predicate GrownFrames(s: State, s': State, sp: nat, vs: set<nat>) {
    && sp in s.spaces
    && (forall g :: g in s.own ==> g in s'.own && s'.own[g] == s.own[g])
    && (forall g :: g in s'.own && g !in s.own ==> NewUser(s, s'.own[g], sp, vs) && !Bit(s, g))
    && (forall g :: Bit(s', g) <==> Bit(s, g) || (g in s'.own && g !in s.own))
  }

  /** What changed in space sp: the pages `vs` are mapped to frames that were not marked, and page
      tables may have come; nothing else. */
  ghost predicate Grown(s: State, s': State, sp: nat, vs: set<nat>) {
    GrownSpace(s, s', sp, vs) && GrownFrames(s, s', sp, vs)
  }

  predicate NewUser(s: State, r: Ref, sp: nat, vs: set<nat>)
    requires sp in s.spaces
  {
    r.sp == sp && match r case Page(_, v) => v in vs case Table(_, i) => i !in s.spaces[sp].pde
  }

  lemma GrownNothing(s: State, sp: nat)
    requires sp in s.spaces
    ensures Grown(s, s, sp, {})
  {}

  lemma GrownTwice(s: State, s1: State, s2: State, sp: nat, vs: set<nat>, ws: set<nat>)
    requires Grown(s, s1, sp, vs) && Grown(s1, s2, sp, ws)
    ensures Grown(s, s2, sp, vs + ws)
  {
    hide Bit;
    forall g | g in s2.own && g !in s.own
      ensures NewUser(s, s2.own[g], sp, vs + ws) && !Bit(s, g)
    {}
  }

  /** Frame and entry for one page, as palloc and page_table_add give them. */
  function Added(s: State, sp: nat, v: nat): State
    requires sp in s.spaces && NextFrame(s, sp != KERNEL) != -1
    requires v / 1024 in s.spaces[sp].pde || NextFrame(Took(s, sp != KERNEL), false) != -1
  {
    PutPage(WithTable(Took(s, sp != KERNEL), sp, v / 1024), sp, v, FrameOf(s, sp != KERNEL))
  }

  lemma TookInv(s: State, user: bool)
    requires Inv(s) && NextFrame(s, user) != -1
    ensures var s1 := Took(s, user);
            Inv(s1) && Bit(s1, FrameOf(s, user)) && FrameOf(s, user) !in s1.own
                && (FrameOf(s, user) >= s.uStart <==> user)
  {
    hide PoolsOk, Bit;
    TookFacts(s, user);
    var s1 := Took(s, user);
    TookMapped(s, s1);
  }

  lemma TookMapped(s: State, s1: State)
    requires Mapped(s) && SpacesOk(s) && s1 == s.(kbits := s1.kbits, ubits := s1.ubits)
    ensures Mapped(s1) && SpacesOk(s1)
  {
    forall g {:trigger s1.own[g]} | g in s1.own
      ensures UserOk(s1, g)
    {
      assert s1.own[g] == s.own[g] && UserOk(s, g);
    }
    forall sp, v | sp in s1.spaces && v in s1.spaces[sp].pte
      ensures PageOk(s1, sp, v)
    {
      assert PageOk(s, sp, v);
    }
  }

  lemma AddedKeeps(s: State, sp: nat, v: nat)
    requires Inv(s) && sp in s.spaces && NextFrame(s, sp != KERNEL) != -1
    requires v / 1024 in s.spaces[sp].pde || NextFrame(Took(s, sp != KERNEL), false) != -1
    requires v !in s.spaces[sp].pte
    requires s.spaces[sp].start <= v < s.spaces[sp].start + |s.spaces[sp].bits|
    requires s.spaces[sp].bits[v - s.spaces[sp].start]
    ensures Inv(Added(s, sp, v)) && Grown(s, Added(s, sp, v), sp, {v})
  {
    hide Inv, Bit, Took, FrameOf, NextFrame, Grown;
    var f := FrameOf(s, sp != KERNEL);
    TookInv(s, sp != KERNEL);
    TookIs(s, sp != KERNEL);
    var s1 := Took(s, sp != KERNEL);
    if v / 1024 !in s.spaces[sp].pde {
      TookInv(s1, false);
      TookIs(s1, false);
      PutTableKeeps(Took(s1, false), sp, v / 1024, FrameOf(s1, false));
      BitStays(Took(s1, false), PutTable(Took(s1, false), sp, v / 1024, FrameOf(s1, false)));
    }
    var s2 := WithTable(s1, sp, v / 1024);
    PutPageKeeps(s2, sp, v, f);
    AddedGrown(s, sp, v);
  }

  lemma AddedGrown(s: State, sp: nat, v: nat)
    requires Inv(s) && sp in s.spaces && NextFrame(s, sp != KERNEL) != -1
    requires v / 1024 in s.spaces[sp].pde || NextFrame(Took(s, sp != KERNEL), false) != -1
    requires v !in s.spaces[sp].pte
    ensures Grown(s, Added(s, sp, v), sp, {v})
  {
    hide Inv, Bit, Took, FrameOf, NextFrame, GrownFrames;
    TookInv(s, sp != KERNEL);
    TookIs(s, sp != KERNEL);
    var s1 := Took(s, sp != KERNEL);
    if v / 1024 !in s.spaces[sp].pde {
      TookIs(s1, false);
    }
    AddedFrames(s, sp, v);
  }

  lemma AddedFrames(s: State, sp: nat, v: nat)
    requires Inv(s) && sp in s.spaces && NextFrame(s, sp != KERNEL) != -1
    requires v / 1024 in s.spaces[sp].pde || NextFrame(Took(s, sp != KERNEL), false) != -1
    ensures GrownFrames(s, Added(s, sp, v), sp, {v})
  {
    hide Inv, Bit, Took, FrameOf, NextFrame;
    var f := FrameOf(s, sp != KERNEL);
    TookInv(s, sp != KERNEL);
    TookIs(s, sp != KERNEL);
    var s1 := Took(s, sp != KERNEL);
    var s' := Added(s, sp, v);
    if v / 1024 !in s.spaces[sp].pde {
      var t := FrameOf(s1, false);
      TookIs(s1, false);
      BitStays(Took(s1, false), s');
      assert s'.own == s.own[t := Table(sp, v / 1024)][f := Page(sp, v)] && t != f;
    } else {
      BitStays(s1, s');
      assert s'.own == s.own[f := Page(sp, v)];
    }
  }

  lemma TookIs(s: State, user: bool)
    requires Inv(s) && NextFrame(s, user) != -1
    ensures var f := FrameOf(s, user);
            var s1 := Took(s, user);
            && s1 == s.(kbits := s1.kbits, ubits := s1.ubits) && |s1.kbits| == |s.kbits| && |s1.ubits| == |s.ubits|
            && !Bit(s, f) && f !in s.own && forall g :: Bit(s1, g) == (Bit(s, g) || g == f)
  {
    hide Bit, Mapped, SpacesOk;
    TookFacts(s, user);
  }

  lemma BitStays(s: State, s': State)
    requires s' == s.(spaces := s'.spaces, own := s'.own, data := s'.data)
    ensures forall g :: Bit(s', g) == Bit(s, g)
  {}

  // ---- how many frames it takes ----

  /** The clear positions of a pool. */
  function ClearBits(bits: seq<bool>): set<nat> {
    set k: nat | k < |bits| && !bits[k]
  }

  /** The free frames of the user pool, or of the kernel's. */
  function Frames(s: State, user: bool): nat {
    |ClearBits(if user then s.ubits else s.kbits)|
  }

  /** The directory indices of the pages `vs`. */
  function Dirs(vs: set<nat>): set<nat> {
    set v | v in vs :: v / 1024
  }

  /** The page tables that pages `vs` need and space sp does not have. */
  function NewTables(s: State, sp: nat, vs: set<nat>): set<nat>
    requires sp in s.spaces
  {
    Dirs(vs) - s.spaces[sp].pde.Keys
  }

  /** There is a free frame for each of the pages and for each page table they need. */
  predicate Enough(s: State, sp: nat, vs: set<nat>)
    requires sp in s.spaces
  {
    if sp == KERNEL then |vs| + |NewTables(s, sp, vs)| <= Frames(s, false)
    else |vs| <= Frames(s, true) && |NewTables(s, sp, vs)| <= Frames(s, false)
  }

  /** Each of the pages took one frame, and so did each page table they need. */
  ghost predicate Spent(s: State, s': State, sp: nat, vs: set<nat>) {
    && sp in s.spaces && sp in s'.spaces
    && s'.spaces[sp].pde.Keys == s.spaces[sp].pde.Keys + NewTables(s, sp, vs)
    && Frames(s', true) + (if sp == KERNEL then 0 else |vs|) == Frames(s, true)
    && Frames(s', false) + |NewTables(s, sp, vs)| + (if sp == KERNEL then |vs| else 0) == Frames(s, false)
  }

  lemma NoneClear(bits: seq<bool>)
    ensures FirstClear(bits) == -1 <==> |ClearBits(bits)| == 0
    ensures FirstClear(bits) != -1 ==> |ClearBits(bits[FirstClear(bits) := true])| + 1 == |ClearBits(bits)|
  {
    var k := FirstClear(bits);
    if k == -1 {
      assert ClearBits(bits) == {};
    } else {
      assert k in ClearBits(bits);
      assert ClearBits(bits[k := true]) == ClearBits(bits) - {k};
    }
  }

  lemma TookFrames(s: State, user: bool)
    ensures NextFrame(s, user) == -1 <==> Frames(s, user) == 0
    ensures NextFrame(s, user) != -1 ==> Frames(Took(s, user), user) + 1 == Frames(s, user)
    ensures NextFrame(s, user) != -1 ==> Frames(Took(s, user), !user) == Frames(s, !user)
  {
    hide ClearBits;
    NoneClear(if user then s.ubits else s.kbits);
  }

  lemma OneTable(s: State, sp: nat, v: nat)
    requires sp in s.spaces
    ensures NewTables(s, sp, {v}) == if v / 1024 in s.spaces[sp].pde then {} else {v / 1024}
  {}

  lemma SpentNothing(s: State, s': State, sp: nat)
    requires sp in s.spaces && sp in s'.spaces && s'.spaces[sp].pde == s.spaces[sp].pde && s'.kbits == s.kbits
    requires s'.ubits == s.ubits
    ensures Spent(s, s', sp, {})
  {
    assert NewTables(s, sp, {}) == {};
  }

  lemma DirsMore(vs: set<nat>, v: nat)
    ensures Dirs(vs + {v}) == Dirs(vs) + {v / 1024}
  {
    assert v in vs + {v};
    forall w | w in vs
      ensures w in vs + {v}
    {}
    assert Dirs(vs) <= Dirs(vs + {v});
  }

  /** The page tables of one page more. */
  lemma TablesMore(s: State, s1: State, sp: nat, vs: set<nat>, v: nat)
    requires sp in s.spaces && sp in s1.spaces && s1.spaces[sp].pde.Keys == s.spaces[sp].pde.Keys + NewTables(s, sp, vs)
    ensures NewTables(s, sp, vs + {v}) == NewTables(s, sp, vs) + NewTables(s1, sp, {v})
    ensures |NewTables(s, sp, vs + {v})| == |NewTables(s, sp, vs)| + |NewTables(s1, sp, {v})|
  {
    OneTable(s1, sp, v);
    DirsMore(vs, v);
    hide Dirs;
    assert NewTables(s, sp, vs) !! NewTables(s1, sp, {v});
  }

  lemma SpentMore(s: State, s1: State, s2: State, sp: nat, vs: set<nat>, v: nat)
    requires Spent(s, s1, sp, vs) && Spent(s1, s2, sp, {v}) && v !in vs
    ensures Spent(s, s2, sp, vs + {v})
  {
    hide NewTables, Frames;
    TablesMore(s, s1, sp, vs, v);
    assert |vs + {v}| == |vs| + 1;
  }

  /** Too few frames for the next page are too few for all. */
  lemma TooFew(s: State, s1: State, sp: nat, vs: set<nat>, v: nat, all: set<nat>)
    requires Spent(s, s1, sp, vs) && v !in vs && vs + {v} <= all && !Enough(s1, sp, {v})
    ensures !Enough(s, sp, all)
  {
    hide Frames;
    TablesMore(s, s1, sp, vs, v);
    assert |vs + {v}| == |vs| + 1;
    SubsetSize(vs + {v}, all);
    assert Dirs(vs + {v}) <= Dirs(all);
    SubsetSize(NewTables(s, sp, vs + {v}), NewTables(s, sp, all));
  }

  lemma SpentEnough(s: State, s': State, sp: nat, vs: set<nat>)
    requires Spent(s, s', sp, vs)
    ensures Enough(s, sp, vs)
  {
    hide Frames, NewTables;
  }

  lemma SameEnough(s: State, s': State, sp: nat, vs: set<nat>)
    requires sp in s.spaces && sp in s'.spaces && s'.spaces[sp].pde == s.spaces[sp].pde && s'.kbits == s.kbits
    requires s'.ubits == s.ubits
    ensures Enough(s, sp, vs) == Enough(s', sp, vs)
  {}

  /** What Added did to the pools and the page directory. */
  lemma AddedShape(s: State, sp: nat, v: nat)
    requires sp in s.spaces && NextFrame(s, sp != KERNEL) != -1
    requires v / 1024 in s.spaces[sp].pde || NextFrame(Took(s, sp != KERNEL), false) != -1
    ensures var s1 := Took(s, sp != KERNEL);
            var s2 := if v / 1024 in s.spaces[sp].pde then s1 else Took(s1, false);
            var s' := Added(s, sp, v);
            && s'.kbits == s2.kbits && s'.ubits == s2.ubits && sp in s'.spaces
            && s'.spaces[sp].pde.Keys == s.spaces[sp].pde.Keys + {v / 1024}
  {
    hide NextFrame;
  }

  lemma SameFrames(s: State, s': State)
    requires s'.kbits == s.kbits && s'.ubits == s.ubits
    ensures Frames(s', true) == Frames(s, true) && Frames(s', false) == Frames(s, false)
  {}

  lemma AddedSpent(s: State, sp: nat, v: nat)
    requires sp in s.spaces && NextFrame(s, sp != KERNEL) != -1
    requires v / 1024 in s.spaces[sp].pde || NextFrame(Took(s, sp != KERNEL), false) != -1
    ensures sp in Added(s, sp, v).spaces && Spent(s, Added(s, sp, v), sp, {v})
  {
    hide NextFrame, Frames, Added, Took, Spent, FrameOf, ClearBits, FirstClear;
    AddedShape(s, sp, v);
    TookFrames(s, sp != KERNEL);
    var s1, s' := Took(s, sp != KERNEL), Added(s, sp, v);
    if v / 1024 in s.spaces[sp].pde {
      SameFrames(s1, s');
    } else {
      TookFrames(s1, false);
      SameFrames(Took(s1, false), s');
    }
    SpentOne(s, s', sp, v);
  }

  /** One page with its frames counted. */
  lemma SpentOne(s: State, s': State, sp: nat, v: nat)
    requires sp in s.spaces && sp in s'.spaces && s'.spaces[sp].pde.Keys == s.spaces[sp].pde.Keys + {v / 1024}
    requires Frames(s', true) + (if sp == KERNEL then 0 else 1) == Frames(s, true)
    requires Frames(s', false) + (if sp == KERNEL then 1 else 0) + (if v / 1024 in s.spaces[sp].pde then 0 else 1)
          == Frames(s, false)
    ensures Spent(s, s', sp, {v})
  {
    hide Frames, NewTables;
    OneTable(s, sp, v);
  }

  /** Bits of the virtual bitmap changed. */
  function WithBits(s: State, sp: nat, from: nat, n: nat, to: bool): State
    requires sp in s.spaces && from + n <= |s.spaces[sp].bits|
  {
    s.(spaces := s.spaces[sp := s.spaces[sp].(bits := SetRun(s.spaces[sp].bits, from, n, to))])
  }

  lemma WithBitsKeeps(s: State, sp: nat, from: nat, n: nat, to: bool)
    requires Inv(s) && sp in s.spaces && from + n <= |s.spaces[sp].bits|
    requires !to ==>
               forall v :: s.spaces[sp].start + from <= v < s.spaces[sp].start + from + n ==> v !in s.spaces[sp].pte
    ensures Inv(WithBits(s, sp, from, n, to))
  {
    hide Mapped;
    var s' := WithBits(s, sp, from, n, to);
    assert forall g :: Bit(s', g) == Bit(s, g);
    WithBitsMapped(s, s', sp);
    forall sq, v | sq in s'.spaces && v in s'.spaces[sq].pte
      ensures PageOk(s', sq, v)
    {
      assert PageOk(s, sq, v);
    }
  }

  lemma WithBitsMapped(s: State, s': State, sp: nat)
    requires Mapped(s) && sp in s.spaces && sp in s'.spaces && s' == s.(spaces := s.spaces[sp := s'.spaces[sp]])
    requires s'.spaces[sp] == s.spaces[sp].(bits := s'.spaces[sp].bits)
    ensures Mapped(s')
  {
    forall sq, w {:trigger s'.spaces[sq].pte[w]} | sq in s'.spaces && w in s'.spaces[sq].pte
      ensures s'.spaces[sq].pte[w] in s'.own && s'.own[s'.spaces[sq].pte[w]] == Page(sq, w)
    {
      assert s'.spaces[sq].pte[w] == s.spaces[sq].pte[w];
    }
    forall sq, i {:trigger s'.spaces[sq].pde[i]} | sq in s'.spaces && i in s'.spaces[sq].pde
      ensures s'.spaces[sq].pde[i] in s'.own && s'.own[s'.spaces[sq].pde[i]] == Table(sq, i)
    {
      assert s'.spaces[sq].pde[i] == s.spaces[sq].pde[i];
    }
    forall g {:trigger s'.own[g]} | g in s'.own
      ensures UserOk(s', g)
    {
      assert s'.own[g] == s.own[g] && UserOk(s, g);
    }
  }

  /** An allocation of n pages that stopped in state s' after `done` of them, which gave state s1. */
  ghost predicate Stopped(s: State, s1: State, s': State, sp: nat, v: nat, n: nat, done: nat, end: End) {
    && sp in s.spaces && v >= s.spaces[sp].start && v - s.spaces[sp].start + n <= |s.spaces[sp].bits| && done < n
    && Inv(s1) && Grown(WithBits(s, sp, v - s.spaces[sp].start, n, true), s1, sp, Range(v, done))
    && Spent(s, s1, sp, Range(v, done)) && sp in s1.spaces && !Enough(s1, sp, {v + done})
    && (end.NoFrame? ==> s' == s1)
    && (end.NoTable? ==> NextFrame(s1, sp != KERNEL) != -1 && s' == Took(s1, sp != KERNEL))
  }

  /** How an allocation ends: with its pages, with none of the virtual bitmap, without a frame for a
      page, or without one for a page table, where the code goes on with frame 0. */
  datatype End = Done | NoRun | NoFrame | NoTable

  class Memory {
    var kbits: seq<bool>
    var ubits: seq<bool>
    const kStart: nat
    const uStart: nat
    var spaces: map<nat, Space>
    ghost var own: map<nat, Ref>
    var data: map<nat, seq<byte>>

    ghost function S(): State
      reads this
    {
      State(kbits, ubits, kStart, uStart, spaces, own, data)
    }

    /** palloc. */
    method Palloc(user: bool) returns (f: int)
      modifies this`kbits, this`ubits
      ensures f == -1 <==> NextFrame(old(S()), user) == -1
      ensures f == -1 ==> S() == old(S())
      ensures f != -1 ==> f == FrameOf(old(S()), user) && S() == Took(old(S()), user)
      ensures var k := FirstClear(if user then old(ubits) else old(kbits));
              && f == (if k == -1 then -1 else if user then uStart + k else kStart + k)
              && ubits == (if user && k != -1 then old(ubits)[k := true] else old(ubits))
              && kbits == (if !user && k != -1 then old(kbits)[k := true] else old(kbits))
    {
      var bit := FirstClear(if user then ubits else kbits);
      if bit == -1 {
        return -1;
      }
      if user {
        ubits := ubits[bit := true];
        f := uStart + bit;
      } else {
        kbits := kbits[bit := true];
        f := kStart + bit;
      }
    }

    /** palloc and page_table_add for one page. The entry is not present yet, as the code asserts. */
    method AddPage(sp: nat, v: nat) returns (end: End)
      requires Inv(S()) && sp in spaces && v !in spaces[sp].pte
      requires spaces[sp].start <= v < spaces[sp].start + |spaces[sp].bits| && spaces[sp].bits[v - spaces[sp].start]
      modifies this`kbits, this`ubits, this`spaces, this`own
      ensures !end.NoRun? && (end.Done? <==> Enough(old(S()), sp, {v}))
      ensures end.Done? ==> Inv(S()) && Grown(old(S()), S(), sp, {v}) && Spent(old(S()), S(), sp, {v})
                            && sp in spaces && v in spaces[sp].pte
      ensures end.NoFrame? ==> S() == old(S()) && NextFrame(S(), sp != KERNEL) == -1
      ensures end.NoTable? ==> NextFrame(S(), false) == -1 && v / 1024 !in old(spaces)[sp].pde
                               && NextFrame(old(S()), sp != KERNEL) != -1 && S() == Took(old(S()), sp != KERNEL)
    {
      hide Inv, Grown, Spent, NextFrame, Took, FrameOf, Frames, FirstClear, NewTables;
      ghost var s := S();
      TookFrames(s, sp != KERNEL);
      OneTable(s, sp, v);
      var f := Palloc(sp != KERNEL);
      if f == -1 {
        return NoFrame;
      }
      TookShape(s, sp != KERNEL);
      ghost var s1 := S();
      TookFrames(s1, false);
      if v / 1024 !in spaces[sp].pde {
        var t := Palloc(false);
        if t == -1 {
          return NoTable;
        }
        TookShape(s1, false);
        spaces := spaces[sp := spaces[sp].(pde := spaces[sp].pde[v / 1024 := t])];
        own := own[t := Table(sp, v / 1024)];
      }
      assert v !in spaces[sp].pte;
      spaces := spaces[sp := spaces[sp].(pte := spaces[sp].pte[v := f])];
      own := own[f := Page(sp, v)];
      AddedKeeps(s, sp, v);
      AddedSpent(s, sp, v);
      assert S() == Added(s, sp, v);
      SpentEnough(s, S(), sp, {v});
      end := Done;
    }

    static lemma TookShape(s: State, user: bool)
      requires NextFrame(s, user) != -1
      ensures Took(s, user).spaces == s.spaces && Took(s, user).own == s.own && Took(s, user).data == s.data
      ensures Took(s, user).kStart == s.kStart && Took(s, user).uStart == s.uStart
    {}

    /** The bitmap loops of vaddr_get and vaddr_remove. */
    method SetVirtual(sp: nat, from: nat, n: nat, to: bool)
      requires sp in spaces && from + n <= |spaces[sp].bits|
      modifies this`spaces
      ensures S() == WithBits(old(S()), sp, from, n, to)
    {
      var bits := spaces[sp].bits;
      var cnt := 0;
      while cnt < n
        invariant cnt <= n && |bits| == |spaces[sp].bits| && bits == SetRun(spaces[sp].bits, from, cnt, to)
      {
        bits := bits[from + cnt := to];
        cnt := cnt + 1;
      }
      spaces := spaces[sp := spaces[sp].(bits := bits)];
    }

    /** malloc_page. When frames run out in the middle, what was done stays: the first `done` pages are
        mapped as they would be, which is state s1, and if it was a page table that had no frame, the frame
        taken for its page is marked as well. */
    method MallocPage(sp: nat, n: nat) returns (end: End, v: nat, ghost done: nat, ghost s1: State)
      requires Inv(S()) && sp in spaces && n > 0
      modifies this`kbits, this`ubits, this`spaces, this`own
      ensures end.NoRun? ==> S() == old(S())
      ensures end.NoRun? <==> FirstRun(old(spaces)[sp].bits, n) == -1
      ensures !end.NoRun? ==> v == old(spaces)[sp].start + FirstRun(old(spaces)[sp].bits, n)
      ensures end.Done? <==> FirstRun(old(spaces)[sp].bits, n) != -1 && Enough(old(S()), sp, Range(v, n))
      ensures end.Done? ==> Inv(S()) && v >= old(spaces)[sp].start
                            && v - old(spaces)[sp].start + n <= |old(spaces)[sp].bits|
                            && Grown(WithBits(old(S()), sp, v - old(spaces)[sp].start, n, true), S(), sp, Range(v, n))
                            && Spent(old(S()), S(), sp, Range(v, n))
      ensures end.NoFrame? ==> Inv(S()) && NextFrame(S(), sp != KERNEL) == -1
      ensures end.NoTable? ==> NextFrame(S(), false) == -1
      ensures end.NoFrame? || end.NoTable? ==>
                v >= old(spaces)[sp].start && v - old(spaces)[sp].start + n <= |old(spaces)[sp].bits|
                && Stopped(old(S()), s1, S(), sp, v, n, done, end)
    {
      hide Inv, Grown, Spent, Enough, NextFrame, WithBits, FirstRun, Took, Range, Frames, ClearRun, Stopped;
      var r := FirstRun(spaces[sp].bits, n);
      done, s1 := 0, S();
      if r == -1 {
        return NoRun, 0, 0, s1;
      }
      ghost var s := S();
      RunIsFree(s, sp, r, n);
      v := spaces[sp].start + r;
      SetVirtual(sp, r, n, true);
      WithBitsKeeps(s, sp, r, n, true);
      WithBitsSame(s, sp, r, n, true);
      end, done, s1 := MapPages(sp, v, n, s, r);
    }

    /** The loop of malloc_page, once the virtual pages are marked. */
    method MapPages(sp: nat, v: nat, n: nat, ghost s: State, ghost r: nat)
      returns (end: End, ghost done: nat, ghost s1: State)
      requires sp in s.spaces && r + n <= |s.spaces[sp].bits| && v == s.spaces[sp].start + r
      requires S() == WithBits(s, sp, r, n, true) && Inv(S())
      requires forall w :: v <= w < v + n ==> w !in s.spaces[sp].pte
      modifies this`kbits, this`ubits, this`spaces, this`own
      ensures !end.NoRun? && (end.Done? <==> Enough(s, sp, Range(v, n)))
      ensures end.Done? ==>
                Inv(S()) && Grown(WithBits(s, sp, r, n, true), S(), sp, Range(v, n)) && Spent(s, S(), sp, Range(v, n))
      ensures end.NoFrame? ==> Inv(S()) && NextFrame(S(), sp != KERNEL) == -1
      ensures end.NoTable? ==> NextFrame(S(), false) == -1
      ensures !end.Done? ==> Stopped(s, s1, S(), sp, v, n, done, end)
    {
      hide Inv, Grown, Spent, Enough, NextFrame, WithBits, Took, Range, Frames;
      ghost var s0 := S();
      done, s1 := 0, s0;
      WithBitsSame(s, sp, r, n, true);
      GrownNothing(s0, sp);
      SpentNothing(s, s0, sp);
      RangeNone(v);
      var cnt := 0;
      while cnt < n
        invariant cnt <= n && Inv(S()) && Grown(s0, S(), sp, Range(v, cnt)) && sp in spaces
                  && Spent(s, S(), sp, Range(v, cnt))
      {
        s1, done := S(), cnt;
        NextToMap(s, s0, s1, sp, r, n, cnt);
        end := AddPage(sp, v + cnt);
        RangeInside(v, cnt, n);
        if !end.Done? {
          TooFew(s, s1, sp, Range(v, cnt), v + cnt, Range(v, n));
          return;
        }
        GrownTwice(s0, s1, S(), sp, Range(v, cnt), {v + cnt});
        SpentMore(s, s1, S(), sp, Range(v, cnt), v + cnt);
        RangeMore(v, cnt);
        cnt := cnt + 1;
      }
      SpentEnough(s, S(), sp, Range(v, n));
      end := Done;
    }

    /** mfree_page of pages that are there. Each frame was marked, and is not afterwards. */
    method MfreePage(sp: nat, v: nat, n: nat)
      requires Inv(S()) && sp in spaces && v >= spaces[sp].start && forall w :: v <= w < v + n ==> w in spaces[sp].pte
      requires v - spaces[sp].start + n <= |spaces[sp].bits|
      modifies this`kbits, this`ubits, this`spaces, this`own
      ensures Inv(S())
      ensures Shrunk(old(S()), S(), sp, v, n, SetRun(old(spaces)[sp].bits, v - old(spaces)[sp].start, n, false))
    {
      hide Inv, WithBits, Shrunk, Bit;
      ghost var s := S();
      var cnt := 0;
      ShrunkNothing(s, sp, v);
      while cnt < n
        invariant cnt <= n && Inv(S()) && Shrunk(s, S(), sp, v, cnt, s.spaces[sp].bits)
      {
        ghost var s1 := S();
        ShrunkNext(s, s1, sp, v, cnt);
        var f := spaces[sp].pte[v + cnt];
        FrameMarked(s1, sp, v + cnt);
        FreeFrame(f);
        spaces := spaces[sp := spaces[sp].(pte := spaces[sp].pte - {v + cnt})];
        own := own - {f};
        FreedKeeps(s1, S(), sp, v + cnt);
        ShrunkStep(s, s1, S(), sp, v, cnt);
        cnt := cnt + 1;
      }
      ghost var s2 := S();
      ShrunkEnd(s, s2, sp, v, n);
      var from := v - spaces[sp].start;
      SetVirtual(sp, from, n, false);
      WithBitsKeeps(s2, sp, from, n, false);
      ShrunkBits(s, s2, S(), sp, v, n, from);
    }

    /** pfree and free_a_phy_page: the pool bit of the frame. */
    method FreeFrame(f: nat)
      requires if f >= uStart then f - uStart < |ubits| else f >= kStart && f - kStart < |kbits|
      modifies this`kbits, this`ubits
      ensures kbits == (if f >= uStart then old(kbits) else old(kbits)[f - kStart := false])
      ensures ubits == (if f >= uStart then old(ubits)[f - uStart := false] else old(ubits))
    {
      if f >= uStart {
        ubits := ubits[f - uStart := false];
      } else {
        kbits := kbits[f - kStart := false];
      }
    }
  }

  /** The pages v to v + n. */
  function Range(v: nat, n: nat): (r: set<nat>)
    ensures forall w: nat :: w in r <==> v <= w < v + n
  {
    if n == 0 then {} else Range(v, n - 1) + {v + n - 1}
  }

  lemma RangeNone(v: nat)
    ensures Range(v, 0) == {}
  {}

  lemma RangeMore(v: nat, k: nat)
    ensures Range(v, k + 1) == Range(v, k) + {v + k}
  {}

  lemma RangeInside(v: nat, k: nat, n: nat)
    requires k < n
    ensures v + k !in Range(v, k) && Range(v, k) + {v + k} <= Range(v, n)
  {}

  /** Pages whose virtual bits are clear are not present. */
  lemma RunIsFree(s: State, sp: nat, r: nat, n: nat)
    requires Inv(s) && sp in s.spaces && ClearRun(s.spaces[sp].bits, r, n)
    ensures r + n <= |s.spaces[sp].bits|
    ensures forall v :: s.spaces[sp].start + r <= v < s.spaces[sp].start + r + n ==> v !in s.spaces[sp].pte
  {
    forall v | s.spaces[sp].start + r <= v < s.spaces[sp].start + r + n
      ensures v !in s.spaces[sp].pte
    {
      assert v in s.spaces[sp].pte ==> PageOk(s, sp, v);
    }
  }

  lemma WithBitsSame(s: State, sp: nat, from: nat, n: nat, to: bool)
    requires sp in s.spaces && from + n <= |s.spaces[sp].bits|
    ensures var s' := WithBits(s, sp, from, n, to);
            && sp in s'.spaces && s'.spaces[sp].start == s.spaces[sp].start && s'.spaces[sp].pde == s.spaces[sp].pde
            && s'.kbits == s.kbits && s'.ubits == s.ubits
  {}

  lemma NextToMap(s: State, s0: State, s1: State, sp: nat, r: nat, n: nat, cnt: nat)
    requires sp in s.spaces && r + n <= |s.spaces[sp].bits| && s0 == WithBits(s, sp, r, n, true) && cnt < n
    requires forall v :: s.spaces[sp].start + r <= v < s.spaces[sp].start + r + n ==> v !in s.spaces[sp].pte
    requires Grown(s0, s1, sp, Range(s.spaces[sp].start + r, cnt))
    ensures var v := s.spaces[sp].start + r + cnt;
            var x := s1.spaces[sp];
            v !in x.pte && x.start <= v < x.start + |x.bits| && x.bits[v - x.start]
  {}

  // ---- giving pages back ----

  /** The frames of pages v to v + n of space sp have no user and no mark any more. */
  ghost predicate ShrunkFrames(s: State, s': State, sp: nat, v: nat, n: nat) {
    && (forall g :: g in s'.own <==> g in s.own && !GoneUser(s.own[g], sp, v, n))
    && (forall g :: g in s'.own ==> s'.own[g] == s.own[g])
    && (forall g :: Bit(s', g) <==> Bit(s, g) && !(g in s.own && GoneUser(s.own[g], sp, v, n)))
  }

  /** Pages v to v + n of space sp are gone with their frames, and its bitmap is now `bits`. */
  ghost predicate Shrunk(s: State, s': State, sp: nat, v: nat, n: nat, bits: seq<bool>) {
    && sp in s.spaces && (forall w :: v <= w < v + n ==> w in s.spaces[sp].pte)
    && s' == s.(kbits := s'.kbits, ubits := s'.ubits, spaces := s'.spaces, own := s'.own)
    && |s'.kbits| == |s.kbits| && |s'.ubits| == |s.ubits|
    && s'.spaces == s.spaces[sp := s.spaces[sp].(pte := s.spaces[sp].pte - Range(v, n), bits := bits)]
    && ShrunkFrames(s, s', sp, v, n)
  }

  predicate GoneUser(r: Ref, sp: nat, v: nat, n: nat) {
    r.Page? && r.sp == sp && v <= r.v < v + n
  }

  lemma ShrunkNothing(s: State, sp: nat, v: nat)
    requires sp in s.spaces
    ensures Shrunk(s, s, sp, v, 0, s.spaces[sp].bits)
  {
    assert s.spaces[sp].pte - Range(v, 0) == s.spaces[sp].pte;
  }

  lemma ShrunkNext(s: State, s1: State, sp: nat, v: nat, cnt: nat)
    requires sp in s.spaces && Shrunk(s, s1, sp, v, cnt, s.spaces[sp].bits) && v + cnt in s.spaces[sp].pte
    ensures sp in s1.spaces && v + cnt in s1.spaces[sp].pte && s1.kStart == s.kStart && s1.uStart == s.uStart
  {}

  lemma FrameMarked(s: State, sp: nat, v: nat)
    requires Inv(s) && sp in s.spaces && v in s.spaces[sp].pte
    ensures var f := s.spaces[sp].pte[v];
            && Bit(s, f) && f in s.own && s.own[f] == Page(sp, v)
            && if f >= s.uStart then f - s.uStart < |s.ubits| else f >= s.kStart && f - s.kStart < |s.kbits|
  {
    var f := s.spaces[sp].pte[v];
    assert s.own[f] == Page(sp, v);
  }

  /** One page and its frame given back. */
  ghost predicate PageFreed(s: State, s': State, sp: nat, v: nat) {
    && sp in s.spaces && v in s.spaces[sp].pte
    && var f := s.spaces[sp].pte[v];
       && |s'.kbits| == |s.kbits| && |s'.ubits| == |s.ubits|
       && s' == s.(kbits := s'.kbits, ubits := s'.ubits, own := s.own - {f},
                   spaces := s.spaces[sp := s.spaces[sp].(pte := s.spaces[sp].pte - {v})])
       && forall g :: Bit(s', g) <==> Bit(s, g) && g != f
  }

  lemma FreedKeeps(s: State, s': State, sp: nat, v: nat)
    requires Inv(s) && sp in s.spaces && v in s.spaces[sp].pte
    requires var f := s.spaces[sp].pte[v];
             && s' == s.(kbits := s'.kbits, ubits := s'.ubits, own := s.own - {f},
                         spaces := s.spaces[sp := s.spaces[sp].(pte := s.spaces[sp].pte - {v})])
             && (if f >= s.uStart then f - s.uStart < |s.ubits| else f >= s.kStart && f - s.kStart < |s.kbits|)
             && s'.kbits == (if f >= s.uStart then s.kbits else s.kbits[f - s.kStart := false])
             && s'.ubits == (if f >= s.uStart then s.ubits[f - s.uStart := false] else s.ubits)
    ensures Inv(s') && PageFreed(s, s', sp, v)
  {
    hide Mapped, SpacesOk;
    var f := s.spaces[sp].pte[v];
    DropPageKeeps(s, sp, v);
    var d := DropPage(s, sp, v);
    TookMapped(d, s');
    forall g
      ensures Bit(s', g) <==> Bit(s, g) && g != f
    {}
    assert forall g :: g in s'.own ==> g in d.own && s'.own[g] == d.own[g] && g != f;
  }

  lemma ShrunkStep(s: State, s1: State, s2: State, sp: nat, v: nat, cnt: nat)
    requires Inv(s) && sp in s.spaces && Shrunk(s, s1, sp, v, cnt, s.spaces[sp].bits) && PageFreed(s1, s2, sp, v + cnt)
    ensures Shrunk(s, s2, sp, v, cnt + 1, s.spaces[sp].bits)
  {
    hide Bit, PoolsOk, SpacesOk, ShrunkFrames, Range;
    var f := s1.spaces[sp].pte[v + cnt];
    assert s.spaces[sp].pte[v + cnt] == f && s.own[f] == Page(sp, v + cnt);
    RangeMore(v, cnt);
    assert s.spaces[sp].pte - Range(v, cnt) - {v + cnt} == s.spaces[sp].pte - Range(v, cnt + 1);
    ShrunkFramesStep(s, s1, s2, sp, v, cnt, f);
  }

  lemma ShrunkFramesStep(s: State, s1: State, s2: State, sp: nat, v: nat, cnt: nat, f: nat)
    requires Mapped(s) && ShrunkFrames(s, s1, sp, v, cnt)
    requires s2.own == s1.own - {f} && (forall g :: Bit(s2, g) <==> Bit(s1, g) && g != f)
    requires sp in s.spaces && v + cnt in s.spaces[sp].pte && s.spaces[sp].pte[v + cnt] == f
    ensures ShrunkFrames(s, s2, sp, v, cnt + 1)
  {
    hide Bit;
    assert f in s.own && s.own[f] == Page(sp, v + cnt);
    forall g | g in s.own
      ensures GoneUser(s.own[g], sp, v, cnt + 1) <==> GoneUser(s.own[g], sp, v, cnt) || g == f
    {
      assert UserOk(s, g);
    }
  }

  lemma ShrunkEnd(s: State, s2: State, sp: nat, v: nat, n: nat)
    requires sp in s.spaces && Shrunk(s, s2, sp, v, n, s.spaces[sp].bits)
    ensures sp in s2.spaces && s2.spaces[sp].start == s.spaces[sp].start && s2.spaces[sp].bits == s.spaces[sp].bits
    ensures forall w :: v <= w < v + n ==> w !in s2.spaces[sp].pte
  {}

  lemma ShrunkBits(s: State, s2: State, s3: State, sp: nat, v: nat, n: nat, from: nat)
    requires sp in s.spaces && Shrunk(s, s2, sp, v, n, s.spaces[sp].bits) && from + n <= |s.spaces[sp].bits|
    requires sp in s2.spaces && |s2.spaces[sp].bits| == |s.spaces[sp].bits|
    requires s3 == WithBits(s2, sp, from, n, false)
    ensures Shrunk(s, s3, sp, v, n, SetRun(s.spaces[sp].bits, from, n, false))
  {
    assert forall g :: Bit(s3, g) == Bit(s2, g);
  }

  /** malloc_page and then mfree_page: the entries, the virtual bitmap and the pools are what they
      were, but for the page tables that had to be added. */
  lemma Undone(s: State, s1: State, s2: State, sp: nat, r: nat, n: nat)
    requires Inv(s) && sp in s.spaces && ClearRun(s.spaces[sp].bits, r, n) && sp in s1.spaces
    requires Grown(WithBits(s, sp, r, n, true), s1, sp, Range(s.spaces[sp].start + r, n))
    requires Shrunk(s1, s2, sp, s.spaces[sp].start + r, n, SetRun(s1.spaces[sp].bits, r, n, false))
    ensures sp in s2.spaces && s2.spaces == s.spaces[sp := s.spaces[sp].(pde := s2.spaces[sp].pde)]
    ensures forall i :: i in s.spaces[sp].pde ==> i in s2.spaces[sp].pde && s2.spaces[sp].pde[i] == s.spaces[sp].pde[i]
    ensures forall g :: g in s.own ==> g in s2.own && s2.own[g] == s.own[g]
    ensures forall g :: g in s2.own && g !in s.own ==> s2.own[g].Table? && s2.own[g].sp == sp
    ensures forall g :: Bit(s2, g) <==> Bit(s, g) || (g in s2.own && g !in s.own)
  {
    UndoneSpace(s, s1, s2, sp, r, n);
    UndoneFrames(s, s1, s2, sp, r, n);
  }

  lemma UndoneSpace(s: State, s1: State, s2: State, sp: nat, r: nat, n: nat)
    requires sp in s.spaces && ClearRun(s.spaces[sp].bits, r, n) && sp in s1.spaces
    requires GrownSpace(WithBits(s, sp, r, n, true), s1, sp, Range(s.spaces[sp].start + r, n))
    requires Shrunk(s1, s2, sp, s.spaces[sp].start + r, n, SetRun(s1.spaces[sp].bits, r, n, false))
    ensures sp in s2.spaces && s2.spaces == s.spaces[sp := s.spaces[sp].(pde := s2.spaces[sp].pde)]
    ensures forall i :: i in s.spaces[sp].pde ==> i in s2.spaces[sp].pde && s2.spaces[sp].pde[i] == s.spaces[sp].pde[i]
  {
    hide ShrunkFrames;
    var vs := Range(s.spaces[sp].start + r, n);
    assert s2.spaces[sp].pte == s.spaces[sp].pte;
    assert SetRun(SetRun(s.spaces[sp].bits, r, n, true), r, n, false) == s.spaces[sp].bits;
  }

  lemma UndoneFrames(s: State, s1: State, s2: State, sp: nat, r: nat, n: nat)
    requires Mapped(s) && sp in s.spaces && r + n <= |s.spaces[sp].bits| && sp in s1.spaces
    requires forall v :: s.spaces[sp].start + r <= v < s.spaces[sp].start + r + n ==> v !in s.spaces[sp].pte
    requires GrownFrames(WithBits(s, sp, r, n, true), s1, sp, Range(s.spaces[sp].start + r, n))
    requires ShrunkFrames(s1, s2, sp, s.spaces[sp].start + r, n)
    ensures forall g :: g in s.own ==> g in s2.own && s2.own[g] == s.own[g]
    ensures forall g :: g in s2.own && g !in s.own ==> s2.own[g].Table? && s2.own[g].sp == sp
    ensures forall g :: Bit(s2, g) <==> Bit(s, g) || (g in s2.own && g !in s.own)
  {
    var s0 := WithBits(s, sp, r, n, true);
    BitStays(s, s0);
    hide Bit;
    forall g | g in s.own
      ensures g in s2.own
    {
      assert UserOk(s, g);
    }
  }

  method MallocThenFree(m: Memory, sp: nat, n: nat) returns (end: End)
    requires Inv(m.S()) && sp in m.spaces && n > 0
    modifies m
    ensures var r := FirstRun(old(m.spaces)[sp].bits, n);
            end.Done? <==> r != -1 && Enough(old(m.S()), sp, Range(old(m.spaces)[sp].start + r, n))
    ensures end.NoRun? ==> m.S() == old(m.S())
    ensures end.Done? ==>
              Inv(m.S()) && sp in m.spaces
                  && m.spaces == old(m.spaces)[sp := old(m.spaces)[sp].(pde := m.spaces[sp].pde)]
    ensures end.Done? ==> forall g :: g in old(m.own) ==> g in m.own && m.own[g] == old(m.own)[g]
    ensures end.Done? ==> forall g :: g in m.own && g !in old(m.own) ==> m.own[g].Table? && m.own[g].sp == sp
    ensures end.Done? ==> forall g :: Bit(m.S(), g) <==> Bit(old(m.S()), g) || (g in m.own && g !in old(m.own))
  {
    hide Inv, Bit, Grown, Shrunk, FirstRun, Enough, Spent, Stopped;
    ghost var s := m.S();
    ghost var r := FirstRun(m.spaces[sp].bits, n);
    var v;
    ghost var done, s1;
    end, v, done, s1 := m.MallocPage(sp, n);
    if end.Done? {
      s1 := m.S();
      MallocGives(s, s1, sp, r, n);
      m.MfreePage(sp, v, n);
      RunIsFree(s, sp, r, n);
      Undone(s, s1, m.S(), sp, r, n);
    }
  }

  lemma MallocGives(s: State, s1: State, sp: nat, r: nat, n: nat)
    requires sp in s.spaces && r + n <= |s.spaces[sp].bits|
    requires Grown(WithBits(s, sp, r, n, true), s1, sp, Range(s.spaces[sp].start + r, n))
    ensures sp in s1.spaces && s1.spaces[sp].start == s.spaces[sp].start && |s1.spaces[sp].bits| == |s.spaces[sp].bits|
    ensures forall w :: s.spaces[sp].start + r <= w < s.spaces[sp].start + r + n ==> w in s1.spaces[sp].pte
  {}

  // ---- userprog/fork.c: copy_body_stack_3 ----

  function Content(data: map<nat, seq<byte>>, f: nat): seq<byte> {
    if f in data then data[f] else []
  }

  /** The pages marked in a bitmap, below bit k. */
  function MarkedPages(start: nat, bits: seq<bool>, k: nat): (r: set<nat>)
    requires k <= |bits|
    ensures forall v: nat :: v in r <==> start <= v < start + k && bits[v - start]
  {
    if k == 0 then {} else MarkedPages(start, bits, k - 1) + if bits[k - 1] then {start + k - 1} else {}
  }

  /** Every page marked below bit k is in the child, with the parent's content, and what was in use
      before is as it was. */
  ghost predicate Copied(s: State, s': State, parent: nat, child: nat, k: nat) {
    && parent in s.spaces && child in s.spaces && child in s'.spaces && k <= |s.spaces[parent].bits|
    && Grown(s, s'.(data := s.data), child, MarkedPages(s.spaces[parent].start, s.spaces[parent].bits, k))
    && (forall v :: v in s'.spaces[child].pte ==>
          && v in s.spaces[parent].pte
          && Content(s'.data, s'.spaces[child].pte[v]) == Content(s.data, s.spaces[parent].pte[v]))
    && (forall g :: g in s.own ==> Content(s'.data, g) == Content(s.data, g))
  }

  /** The parent's marked pages are all present, and the child has its bitmap and no page yet. */
  ghost predicate ReadyToCopy(s: State, parent: nat, child: nat) {
    && parent in s.spaces && child in s.spaces && parent != child && child != KERNEL
    && s.spaces[child].pte == map[] && s.spaces[child].start == s.spaces[parent].start
    && s.spaces[child].bits == s.spaces[parent].bits
    && |s.spaces[parent].bits| % 8 == 0
    && forall k :: 0 <= k < |s.spaces[parent].bits| && s.spaces[parent].bits[k] ==>
         s.spaces[parent].start + k in s.spaces[parent].pte
  }

  lemma CopiedNothing(s: State, parent: nat, child: nat)
    requires ReadyToCopy(s, parent, child)
    ensures Copied(s, s, parent, child, 0)
  {
    assert s.(data := s.data) == s;
    GrownNothing(s, child);
  }

  /** The next marked page can be added and its source is there. */
  lemma CopyNext(s: State, s1: State, parent: nat, child: nat, k: nat)
    requires ReadyToCopy(s, parent, child) && Copied(s, s1, parent, child, k) && k < |s.spaces[parent].bits|
    ensures child in s1.spaces && parent in s1.spaces && s1.spaces[parent] == s.spaces[parent]
    ensures |s1.spaces[child].bits| == |s.spaces[parent].bits|
    ensures s1.spaces[child].bits == s.spaces[parent].bits && s1.spaces[child].start == s.spaces[parent].start
    ensures s.spaces[parent].bits[k] ==>
              s.spaces[parent].start + k in s.spaces[parent].pte && s.spaces[parent].start + k !in s1.spaces[child].pte
    ensures !s.spaces[parent].bits[k] ==> Copied(s, s1, parent, child, k + 1)
  {
    hide GrownFrames;
    assert !s.spaces[parent].bits[k] ==>
      MarkedPages(s.spaces[parent].start, s.spaces[parent].bits, k + 1) ==
          MarkedPages(s.spaces[parent].start, s.spaces[parent].bits, k);
  }

  lemma CopyStep(s: State, s1: State, s2: State, s3: State, parent: nat, child: nat, k: nat, v: nat, f: nat, f0: nat)
    requires parent in s.spaces && k < |s.spaces[parent].bits| && s.spaces[parent].bits[k]
    requires v == s.spaces[parent].start + k
    requires v in s.spaces[parent].pte && s.spaces[parent].pte[v] == f0
    requires child in s2.spaces && v in s2.spaces[child].pte && s2.spaces[child].pte[v] == f
    requires s3 == s2.(data := s1.data[f := Content(s1.data, f0)])
    requires Inv(s) && Inv(s1) && Inv(s2) && Copied(s, s1, parent, child, k) && Grown(s1, s2, child, {v})
    ensures Copied(s, s3, parent, child, k + 1)
  {
    hide Inv, Bit, GrownFrames;
    CopyGrown(s, s1, s2, parent, child, k, v);
    FreshFrame(s1, s2, child, v, f);
    assert s3.(data := s.data) == s2.(data := s.data);
    ParentFrame(s, parent, v);
    OtherFrames(s2, child, v, f);
    InvMapped(s1);
    CopyContents(s, s1, s2, s3, parent, child, k, f, f0);
  }

  lemma InvMapped(s: State)
    requires Inv(s)
    ensures Mapped(s)
  {}

  lemma OtherFrames(s2: State, child: nat, v: nat, f: nat)
    requires Inv(s2) && child in s2.spaces && v in s2.spaces[child].pte && s2.spaces[child].pte[v] == f
    ensures forall w :: w in s2.spaces[child].pte && s2.spaces[child].pte[w] == f ==> w == v
  {
    forall w | w in s2.spaces[child].pte && s2.spaces[child].pte[w] == f
      ensures w == v
    {
      Injective(s2, child, v, child, w);
    }
  }

  lemma ParentFrame(s: State, parent: nat, v: nat)
    requires Inv(s) && parent in s.spaces && v in s.spaces[parent].pte
    ensures s.spaces[parent].pte[v] in s.own && s.own[s.spaces[parent].pte[v]] == Page(parent, v)
  {}

  lemma CopyGrown(s: State, s1: State, s2: State, parent: nat, child: nat, k: nat, v: nat)
    requires parent in s.spaces && k < |s.spaces[parent].bits| && s.spaces[parent].bits[k]
    requires v == s.spaces[parent].start + k
    requires Grown(s, s1.(data := s.data), child, MarkedPages(s.spaces[parent].start, s.spaces[parent].bits, k))
    requires Grown(s1, s2, child, {v})
    ensures Grown(s, s2.(data := s.data), child, MarkedPages(s.spaces[parent].start, s.spaces[parent].bits, k + 1))
  {
    hide Grown, MarkedPages;
    var vs := MarkedPages(s.spaces[parent].start, s.spaces[parent].bits, k);
    GrownData(s1, s2, child, {v}, s.data);
    GrownTwice(s, s1.(data := s.data), s2.(data := s.data), child, vs, {v});
    assert MarkedPages(s.spaces[parent].start, s.spaces[parent].bits, k + 1) == vs + {v};
  }

  lemma GrownData(s: State, s': State, sp: nat, vs: set<nat>, data: map<nat, seq<byte>>)
    requires Grown(s, s', sp, vs)
    ensures Grown(s.(data := data), s'.(data := data), sp, vs)
  {
    var t, t' := s.(data := data), s'.(data := data);
    assert forall g :: Bit(t, g) == Bit(s, g) && Bit(t', g) == Bit(s', g);
    assert forall r :: NewUser(t, r, sp, vs) == NewUser(s, r, sp, vs);
  }

  /** The frame that the new page got was in use by nobody. */
  lemma FreshFrame(s1: State, s2: State, child: nat, v: nat, f: nat)
    requires Inv(s1) && Inv(s2) && child in s1.spaces && Grown(s1, s2, child, {v}) && child in s2.spaces
    requires v in s2.spaces[child].pte && s2.spaces[child].pte[v] == f
    ensures f !in s1.own
  {
    hide PoolsOk, SpacesOk, Bit;
    assert s2.own[f] == Page(child, v);
    assert f in s1.own ==> UserOk(s1, f);
  }

  lemma CopyContents(s: State, s1: State, s2: State, s3: State, parent: nat, child: nat, k: nat, f: nat, f0: nat)
    requires Copied(s, s1, parent, child, k) && Mapped(s1) && f !in s1.own && f0 in s.own && parent in s.spaces
    requires child in s2.spaces && s3.spaces == s2.spaces && s3.data == s1.data[f := Content(s1.data, f0)]
    requires forall v :: v in s2.spaces[child].pte && s2.spaces[child].pte[v] != f ==>
               v in s1.spaces[child].pte && s1.spaces[child].pte[v] == s2.spaces[child].pte[v]
    requires forall v :: v in s2.spaces[child].pte && s2.spaces[child].pte[v] == f ==>
               v in s.spaces[parent].pte && s.spaces[parent].pte[v] == f0
    ensures forall v :: v in s3.spaces[child].pte ==>
              && v in s.spaces[parent].pte
              && Content(s3.data, s3.spaces[child].pte[v]) == Content(s.data, s.spaces[parent].pte[v])
    ensures forall g :: g in s.own ==> Content(s3.data, g) == Content(s.data, g)
  {
    hide GrownSpace, Bit;
  }

  // ---- userprog/wait_exit.c: release_prog_resource ----

  const USER_PDES := 768

  /** A process maps only user pages. */
  ghost predicate UserSpace(s: State, sp: nat) {
    && sp in s.spaces && sp != KERNEL
    && (forall v :: v in s.spaces[sp].pte ==> v < 1024 * USER_PDES)
    && (forall i :: i in s.spaces[sp].pde ==> i < USER_PDES)
  }

  /** What the loops have passed at page table p, entry q. */
  predicate Passed(r: Ref, sp: nat, p: nat, q: nat) {
    r.sp == sp && match r case Page(_, v) => v < 1024 * p + q case Table(_, i) => i < p
  }

  /** The frames of everything passed are not marked any more; nothing else changed. */
  ghost predicate Releasing(s: State, s': State, sp: nat, p: nat, q: nat) {
    && s' == s.(kbits := s'.kbits, ubits := s'.ubits) && |s'.kbits| == |s.kbits| && |s'.ubits| == |s.ubits|
    && forall g :: Bit(s', g) <==> Bit(s, g) && !(g in s.own && Passed(s.own[g], sp, p, q))
  }

  /** One frame's bit cleared. */
  lemma ReleaseFrame(s: State, s1: State, s2: State, sp: nat, p: nat, q: nat, p': nat, q': nat, f: nat)
    requires Releasing(s, s1, sp, p, q) && s2 == s1.(kbits := s2.kbits, ubits := s2.ubits)
    requires if f >= s.uStart then f - s.uStart < |s1.ubits| else f >= s.kStart && f - s.kStart < |s1.kbits|
    requires s2.kbits == (if f >= s.uStart then s1.kbits else s1.kbits[f - s.kStart := false])
    requires s2.ubits == (if f >= s.uStart then s1.ubits[f - s.uStart := false] else s1.ubits)
    requires forall g :: g in s.own ==> (Passed(s.own[g], sp, p', q') <==> Passed(s.own[g], sp, p, q) || g == f)
    requires f in s.own
    ensures Releasing(s, s2, sp, p', q')
  {
    hide Passed;
    forall g
      ensures Bit(s2, g) <==> Bit(s1, g) && g != f
    {}
  }

  /** Nothing to free between two positions. */
  lemma ReleaseSkip(s: State, s1: State, sp: nat, p: nat, q: nat, p': nat, q': nat)
    requires Releasing(s, s1, sp, p, q)
    requires forall g :: g in s.own ==> (Passed(s.own[g], sp, p', q') <==> Passed(s.own[g], sp, p, q))
    ensures Releasing(s, s1, sp, p', q')
  {
    hide Passed, Bit;
  }

  /** The user of a frame at the entry that is passed next. */
  lemma PassPage(s: State, sp: nat, p: nat, q: nat)
    requires Inv(s) && sp in s.spaces && q < 1024
    ensures forall g :: g in s.own ==>
              (Passed(s.own[g], sp, p, q + 1) <==> Passed(s.own[g], sp, p, q) || s.own[g] == Page(sp, 1024 * p + q))
    ensures forall g :: g in s.own && s.own[g] == Page(sp, 1024 * p + q) ==>
              1024 * p + q in s.spaces[sp].pte && s.spaces[sp].pte[1024 * p + q] == g
  {
    hide PoolsOk, SpacesOk;
    forall g | g in s.own
      ensures UserOk(s, g)
    {}
  }

  lemma PassTable(s: State, sp: nat, p: nat)
    requires Inv(s) && sp in s.spaces
    ensures forall g :: g in s.own ==>
              (Passed(s.own[g], sp, p + 1, 0) <==> Passed(s.own[g], sp, p, 1024) || s.own[g] == Table(sp, p))
    ensures forall g :: g in s.own && s.own[g] == Table(sp, p) ==> p in s.spaces[sp].pde && s.spaces[sp].pde[p] == g
    ensures p !in s.spaces[sp].pde ==>
              forall g :: g in s.own ==> (Passed(s.own[g], sp, p + 1, 0) <==> Passed(s.own[g], sp, p, 0))
  {
    hide PoolsOk;
    forall g | g in s.own
      ensures UserOk(s, g)
      ensures p !in s.spaces[sp].pde ==> (Passed(s.own[g], sp, p + 1, 0) <==> Passed(s.own[g], sp, p, 0))
    {
      assert UserOk(s, g);
      if s.own[g].Page? && s.own[g].sp == sp {
        assert PageOk(s, sp, s.own[g].v);
      }
    }
  }

  /** A frame that was not passed yet is still marked: it is freed here for the first time. */
  lemma StillMarked(s: State, s1: State, sp: nat, p: nat, q: nat, g: nat)
    requires Inv(s) && Releasing(s, s1, sp, p, q) && g in s.own && !Passed(s.own[g], sp, p, q)
    ensures Bit(s1, g)
    ensures if g >= s.uStart then g - s.uStart < |s1.ubits| else g >= s.kStart && g - s.kStart < |s1.kbits|
  {}

  /** The address space and the users of its frames are gone. */
  function Removed(s: State, sp: nat): State {
    s.(spaces := s.spaces - {sp}, own := map g | g in s.own && s.own[g].sp != sp :: s.own[g])
  }

  lemma RemovedKeeps(s: State, s1: State, sp: nat)
    requires Inv(s) && UserSpace(s, sp) && Releasing(s, s1, sp, USER_PDES, 0)
    ensures Inv(Removed(s1, sp))
    ensures forall g :: Bit(Removed(s1, sp), g) <==> Bit(s, g) && !(g in s.own && s.own[g].sp == sp)
  {
    var s' := Removed(s1, sp);
    forall g | g in s.own
      ensures Passed(s.own[g], sp, USER_PDES, 0) <==> s.own[g].sp == sp
    {
      assert UserOk(s, g);
    }
    assert forall g :: Bit(s', g) == Bit(s1, g);
    RemovedMapped(s, s', sp);
    RemovedPools(s, s', sp);
  }

  lemma RemovedPools(s: State, s': State, sp: nat)
    requires PoolsOk(s) && s'.kStart == s.kStart && s'.uStart == s.uStart && |s'.kbits| == |s.kbits|
    requires s'.own == map g | g in s.own && s.own[g].sp != sp :: s.own[g]
    requires forall g :: Bit(s', g) <==> Bit(s, g) && !(g in s.own && s.own[g].sp == sp)
    ensures PoolsOk(s')
  {
    hide Bit;
    forall g {:trigger s'.own[g]} | g in s'.own
      ensures Bit(s', g) && (g >= s'.uStart <==> s'.own[g].Page? && s'.own[g].sp != KERNEL)
    {
      assert s'.own[g] == s.own[g];
    }
  }

  lemma RemovedMapped(s: State, s': State, sp: nat)
    requires Mapped(s) && SpacesOk(s) && sp != KERNEL && s'.spaces == s.spaces - {sp}
    requires s'.own == map g | g in s.own && s.own[g].sp != sp :: s.own[g]
    ensures Mapped(s') && SpacesOk(s')
  {
    forall sq, w {:trigger s'.spaces[sq].pte[w]} | sq in s'.spaces && w in s'.spaces[sq].pte
      ensures s'.spaces[sq].pte[w] in s'.own && s'.own[s'.spaces[sq].pte[w]] == Page(sq, w)
    {
      assert s.own[s.spaces[sq].pte[w]] == Page(sq, w);
    }
    forall sq, i {:trigger s'.spaces[sq].pde[i]} | sq in s'.spaces && i in s'.spaces[sq].pde
      ensures s'.spaces[sq].pde[i] in s'.own && s'.own[s'.spaces[sq].pde[i]] == Table(sq, i)
    {
      assert s.own[s.spaces[sq].pde[i]] == Table(sq, i);
    }
    forall g {:trigger s'.own[g]} | g in s'.own
      ensures UserOk(s', g)
    {
      assert s'.own[g] == s.own[g] && UserOk(s, g);
    }
    forall sq, v | sq in s'.spaces && v in s'.spaces[sq].pte
      ensures PageOk(s', sq, v)
    {
      assert PageOk(s, sq, v);
    }
  }

  /** The page loops of release_prog_resource, and the end of the address space: exactly the frames of
      the process's pages and page tables are free afterwards, each freed once. */
  method ReleasePages(m: Memory, sp: nat)
    requires Inv(m.S()) && UserSpace(m.S(), sp)
    modifies m
    ensures Inv(m.S()) && m.spaces == old(m.spaces) - {sp} && m.data == old(m.data)
    ensures |m.kbits| == |old(m.kbits)| && |m.ubits| == |old(m.ubits)|
    ensures forall g :: g in m.own ==> m.own[g] == old(m.own)[g]
    ensures forall g :: g in m.own <==> g in old(m.own) && old(m.own)[g].sp != sp
    ensures forall g :: Bit(m.S(), g) <==> Bit(old(m.S()), g) && !(g in old(m.own) && old(m.own)[g].sp == sp)
  {
    hide Inv, Releasing, Bit, Passed;
    ghost var s := m.S();
    ReleaseStart(s, sp);
    var p := 0;
    while p < USER_PDES
      invariant p <= USER_PDES && Releasing(s, m.S(), sp, p, 0) && m.spaces == s.spaces && m.own == s.own
    {
      PassTable(s, sp, p);
      if p in m.spaces[sp].pde {
        ReleaseTablePages(m, sp, p, s);
        ghost var s1 := m.S();
        var t := m.spaces[sp].pde[p];
        TableUser(s, sp, p);
        StillMarked(s, s1, sp, p, 1024, t);
        m.FreeFrame(t);
        ReleaseFrame(s, s1, m.S(), sp, p, 1024, p + 1, 0, t);
      } else {
        ReleaseSkip(s, m.S(), sp, p, 0, p + 1, 0);
      }
      p := p + 1;
    }
    ghost var s2 := m.S();
    RemovedKeeps(s, s2, sp);
    m.spaces := m.spaces - {sp};
    m.own := map g | g in m.own && m.own[g].sp != sp :: m.own[g];
    ReleasedData(s, s2, sp);
    assert m.S() == Removed(s2, sp);
  }

  lemma ReleasedData(s: State, s2: State, sp: nat)
    requires Releasing(s, s2, sp, USER_PDES, 0)
    ensures s2.own == s.own && s2.spaces == s.spaces && s2.kStart == s.kStart && s2.uStart == s.uStart
    ensures s2.data == s.data && |s2.kbits| == |s.kbits| && |s2.ubits| == |s.ubits|
  {}

  lemma ReleaseStart(s: State, sp: nat)
    requires Inv(s)
    ensures Releasing(s, s, sp, 0, 0)
  {}

  lemma TableUser(s: State, sp: nat, p: nat)
    requires Inv(s) && sp in s.spaces && p in s.spaces[sp].pde
    ensures s.spaces[sp].pde[p] in s.own && s.own[s.spaces[sp].pde[p]] == Table(sp, p)
    ensures !Passed(Table(sp, p), sp, p, 1024)
    ensures forall g :: g in s.own && s.own[g] == Table(sp, p) ==> g == s.spaces[sp].pde[p]
  {
    hide PoolsOk, SpacesOk;
    forall g | g in s.own && s.own[g] == Table(sp, p)
      ensures g == s.spaces[sp].pde[p]
    {
      assert UserOk(s, g);
    }
  }

  lemma PageUser(s: State, sp: nat, p: nat, q: nat)
    requires Inv(s) && sp in s.spaces && 1024 * p + q in s.spaces[sp].pte
    ensures var f := s.spaces[sp].pte[1024 * p + q]; f in s.own && s.own[f] == Page(sp, 1024 * p + q)
    ensures !Passed(Page(sp, 1024 * p + q), sp, p, q)
  {}

  /** The inner loop over the 1024 entries of one table. */
  method ReleaseTablePages(m: Memory, sp: nat, p: nat, ghost s: State)
    requires Inv(s) && sp in s.spaces && Releasing(s, m.S(), sp, p, 0) && m.spaces == s.spaces && m.own == s.own
    modifies m`kbits, m`ubits
    ensures Releasing(s, m.S(), sp, p, 1024)
  {
    hide Inv, Releasing, Bit, Passed;
    var q := 0;
    while q < 1024
      invariant q <= 1024 && Releasing(s, m.S(), sp, p, q)
    {
      PassPage(s, sp, p, q);
      ghost var s1 := m.S();
      if 1024 * p + q in m.spaces[sp].pte {
        var f := m.spaces[sp].pte[1024 * p + q];
        PageUser(s, sp, p, q);
        StillMarked(s, s1, sp, p, q, f);
        ReleasingPools(s, s1, sp, p, q);
        m.FreeFrame(f);
        ReleaseFrame(s, s1, m.S(), sp, p, q, p, q + 1, f);
      } else {
        ReleaseSkip(s, s1, sp, p, q, p, q + 1);
      }
      q := q + 1;
    }
  }

  lemma ReleasingPools(s: State, s1: State, sp: nat, p: nat, q: nat)
    requires Releasing(s, s1, sp, p, q)
    ensures s1.kStart == s.kStart && s1.uStart == s.uStart
  {}

  /** copy_body_stack_3: every page that the parent's bitmap marks is mapped in the child with the
      same content, on a frame that nobody used; what was there before is as it was. */
  method CopyPages(m: Memory, parent: nat, child: nat) returns (end: End)
    requires Inv(m.S()) && ReadyToCopy(m.S(), parent, child)
    modifies m
    ensures end.Done? <==> Enough(old(m.S()), child, AllMarked(old(m.spaces)[parent]))
    ensures end.Done? ==> Inv(m.S()) && Copied(old(m.S()), m.S(), parent, child, |old(m.spaces)[parent].bits|)
                          && Spent(old(m.S()), m.S(), child, AllMarked(old(m.spaces)[parent]))
    ensures end.NoFrame? ==> NextFrame(m.S(), true) == -1
    ensures end.NoTable? ==> NextFrame(m.S(), false) == -1
    ensures end.NoFrame? ==> Inv(m.S()) && exists k :: 0 <= k < |old(m.spaces)[parent].bits|
                                                       && Copied(old(m.S()), m.S(), parent, child, k)
    ensures !end.NoRun?
  {
    hide Inv, Grown, Copied, ReadyToCopy, NextFrame, Spent, Enough, MarkedPages;
    ghost var s := m.S();
    ReadyFacts(s, parent, child);
    CopiedNothing(s, parent, child);
    SpentNothing(s, s, child);
    ghost var start, bits := m.spaces[parent].start, m.spaces[parent].bits;
    MarkedNone(start, bits);
    var idxByte := 0;
    var len := |m.spaces[parent].bits| / 8;
    while idxByte < len
      invariant idxByte <= len && Inv(m.S()) && Copied(s, m.S(), parent, child, 8 * idxByte)
      invariant Spent(s, m.S(), child, MarkedPages(start, bits, 8 * idxByte))
    {
      var idxBit := 0;
      while idxBit < 8
        invariant idxBit <= 8 && Inv(m.S()) && Copied(s, m.S(), parent, child, 8 * idxByte + idxBit)
        invariant Spent(s, m.S(), child, MarkedPages(start, bits, 8 * idxByte + idxBit))
      {
        end := CopyPage(m, parent, child, 8 * idxByte + idxBit, s);
        if !end.Done? {
          return;
        }
        idxBit := idxBit + 1;
      }
      idxByte := idxByte + 1;
    }
    SpentEnough(s, m.S(), child, AllMarked(s.spaces[parent]));
    end := Done;
  }

  /** All the pages that a space's bitmap marks. */
  function AllMarked(x: Space): set<nat> {
    MarkedPages(x.start, x.bits, |x.bits|)
  }

  lemma MarkedNone(start: nat, bits: seq<bool>)
    ensures MarkedPages(start, bits, 0) == {}
  {}

  lemma MarkedMore(start: nat, bits: seq<bool>, k: nat)
    requires k < |bits|
    ensures MarkedPages(start, bits, k + 1) == MarkedPages(start, bits, k) + (if bits[k] then {start + k} else {})
    ensures start + k !in MarkedPages(start, bits, k)
    ensures MarkedPages(start, bits, k + 1) <= MarkedPages(start, bits, |bits|)
  {}

  lemma ReadyFacts(s: State, parent: nat, child: nat)
    requires ReadyToCopy(s, parent, child)
    ensures parent in s.spaces && child in s.spaces && |s.spaces[parent].bits| == 8 * (|s.spaces[parent].bits| / 8)
  {}

  /** The body of the loops for one bit. */
  method CopyPage(m: Memory, parent: nat, child: nat, k: nat, ghost s: State) returns (end: End)
    requires Inv(s) && Inv(m.S()) && ReadyToCopy(s, parent, child) && parent in s.spaces && k < |s.spaces[parent].bits|
    requires Copied(s, m.S(), parent, child, k) && child in s.spaces
    requires Spent(s, m.S(), child, MarkedPages(s.spaces[parent].start, s.spaces[parent].bits, k))
    modifies m
    ensures end.Done? ==> Inv(m.S()) && Copied(s, m.S(), parent, child, k + 1)
                          && Spent(s, m.S(), child, MarkedPages(s.spaces[parent].start, s.spaces[parent].bits, k + 1))
    ensures !end.Done? ==> !Enough(s, child, AllMarked(s.spaces[parent]))
    ensures end.NoFrame? ==> m.S() == old(m.S())
    ensures end.NoFrame? ==> NextFrame(m.S(), true) == -1
    ensures end.NoTable? ==> NextFrame(m.S(), false) == -1
    ensures !end.NoRun?
  {
    hide Inv, Grown, Copied, NextFrame, Spent, Enough, MarkedPages, Took;
    ghost var s1 := m.S();
    ghost var vs := MarkedPages(s.spaces[parent].start, s.spaces[parent].bits, k);
    MarkedMore(s.spaces[parent].start, s.spaces[parent].bits, k);
    CopyNext(s, s1, parent, child, k);
    if m.spaces[parent].bits[k] {
      var v := m.spaces[parent].start + k;
      end := m.AddPage(child, v);
      if !end.Done? {
        TooFew(s, s1, child, vs, v, AllMarked(s.spaces[parent]));
        return;
      }
      ghost var s2 := m.S();
      SpentMore(s, s1, s2, child, vs, v);
      GrownParent(s1, s2, parent, child, v);
      m.data := m.data[m.spaces[child].pte[v] := Content(m.data, m.spaces[parent].pte[v])];
      DataKeeps(s2, m.S());
      CopyStep(s, s1, s2, m.S(), parent, child, k, v, m.spaces[child].pte[v], m.spaces[parent].pte[v]);
      DataSpent(s, s2, m.S(), child, vs + {v});
    } else {
      assert vs + {} == vs;
    }
    end := Done;
  }

  lemma DataSpent(s: State, s2: State, s3: State, sp: nat, vs: set<nat>)
    requires Spent(s, s2, sp, vs) && s3 == s2.(data := s3.data)
    ensures Spent(s, s3, sp, vs)
  {}

  lemma GrownParent(s1: State, s2: State, parent: nat, child: nat, v: nat)
    requires Grown(s1, s2, child, {v}) && parent in s1.spaces && parent != child
    ensures parent in s2.spaces && s2.spaces[parent] == s1.spaces[parent] && s2.data == s1.data
  {}

  lemma DataKeeps(s: State, s': State)
    requires Inv(s) && s' == s.(data := s'.data)
    ensures Inv(s')
  {
    hide PoolsOk;
    DataMapped(s, s');
    DataPools(s, s');
  }

  lemma DataPools(s: State, s': State)
    requires PoolsOk(s) && s' == s.(data := s'.data)
    ensures PoolsOk(s')
  {
    assert forall g :: Bit(s', g) == Bit(s, g);
  }

  lemma DataMapped(s: State, s': State)
    requires Mapped(s) && SpacesOk(s) && s' == s.(data := s'.data)
    ensures Mapped(s') && SpacesOk(s')
  {
    forall g {:trigger s'.own[g]} | g in s'.own
      ensures UserOk(s', g)
    {
      assert UserOk(s, g);
    }
    forall sq, v | sq in s'.spaces && v in s'.spaces[sq].pte
      ensures PageOk(s', sq, v)
    {
      assert PageOk(s, sq, v);
    }
  }

  /** What Copied says of one space and of one page. */
  lemma CopiedPage(s: State, s': State, parent: nat, child: nat, v: nat)
    requires ReadyToCopy(s, parent, child) && Copied(s, s', parent, child, |s.spaces[parent].bits|)
    requires s.spaces[parent].start <= v < s.spaces[parent].start + |s.spaces[parent].bits|
    requires s.spaces[parent].bits[v - s.spaces[parent].start]
    ensures parent in s'.spaces && s'.spaces[parent] == s.spaces[parent] && child in s'.spaces
    ensures v in s.spaces[parent].pte && v in s'.spaces[child].pte
    ensures Content(s'.data, s'.spaces[child].pte[v]) == Content(s.data, s.spaces[parent].pte[v])
  {
    hide GrownFrames;
    assert v in MarkedPages(s.spaces[parent].start, s.spaces[parent].bits, |s.spaces[parent].bits|);
  }

  lemma CopiedUsers(s: State, s': State, parent: nat, child: nat, g: nat)
    requires ReadyToCopy(s, parent, child) && Copied(s, s', parent, child, |s.spaces[parent].bits|) && g in s.own
    ensures g in s'.own && s'.own[g] == s.own[g]
  {
    hide GrownSpace, Bit;
  }

  /** The reading of Copied when all bits are done: each marked page of the parent is in the child, with
      the same content, on a frame that is no page of the parent and that nobody used before. */
  lemma CopiedMeans(s: State, s': State, parent: nat, child: nat, v: nat)
    requires parent in s.spaces && child in s'.spaces && v in s'.spaces[child].pte && v in s.spaces[parent].pte
    requires s.spaces[parent].start <= v < s.spaces[parent].start + |s.spaces[parent].bits|
    requires s.spaces[parent].bits[v - s.spaces[parent].start]
    requires Inv(s) && Inv(s') && ReadyToCopy(s, parent, child) && Copied(s, s', parent, child, |s.spaces[parent].bits|)
    ensures Content(s'.data, s'.spaces[child].pte[v]) == Content(s.data, s.spaces[parent].pte[v])
    ensures s'.spaces[child].pte[v] !in s.own
    ensures forall w :: w in s.spaces[parent].pte ==> s'.spaces[child].pte[v] != s.spaces[parent].pte[w]
  {
    hide Inv, Copied, Bit;
    CopiedPage(s, s', parent, child, v);
    var f := s'.spaces[child].pte[v];
    ParentFrame(s', child, v);
    if f in s.own {
      CopiedUsers(s, s', parent, child, f);
      NotYet(s, child, f, v);
      assert false;
    }
    forall w | w in s.spaces[parent].pte
      ensures f != s.spaces[parent].pte[w]
    {
      ParentFrame(s, parent, w);
    }
  }

  lemma NotYet(s: State, child: nat, f: nat, v: nat)
    requires Inv(s) && child in s.spaces && s.spaces[child].pte == map[] && f in s.own
    ensures s.own[f] != Page(child, v)
  {
    assert UserOk(s, f);
  }
}
