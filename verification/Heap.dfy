/** kernel/memory.c: sys_malloc and sys_free, with pages cut into blocks of seven sizes. */
module Heaps {
  import opened Codec
  import opened Lists
  import opened Bitmap
  import opened Counting

  const PG_SIZE := 4096
  /** sizeof(struct arena). */
  const HEADER := 12
  const DESC_CNT := 7

  /** An index into the descriptors. */
  type SizeClass = c: nat | c < DESC_CNT

  type FreeLists = f: seq<seq<nat>> | |f| == DESC_CNT witness seq(DESC_CNT, _ => [])

  /** block_size and blocks_per_arena of the seven descriptors. */
  function BlockSize(c: SizeClass): (n: nat)
    ensures 16 <= n <= 1024
  {
    if c == 0 then 16 else if c == 1 then 32 else if c == 2 then 64 else if c == 3 then 128
    else if c == 4 then 256 else if c == 5 then 512 else 1024
  }

  function PerArena(c: SizeClass): (n: nat)
    ensures 3 <= n <= 255
  {
    (PG_SIZE - HEADER) / BlockSize(c)
  }

  /** The header of an arena: a page of blocks of class c of which `cnt` are free, or a run of
      pages given out as one. */
  datatype Arena = Small(c: SizeClass, cnt: nat) | Large(pages: nat)

  /** arena2block. */
  function Block(p: nat, c: SizeClass, i: nat): nat
  {
    PG_SIZE * p + HEADER + i * BlockSize(c)
  }

  lemma BlockInPage(p: nat, c: SizeClass, i: nat)
    requires i < PerArena(c)
    ensures PG_SIZE * p + HEADER <= Block(p, c, i) && Block(p, c, i) + BlockSize(c) <= PG_SIZE * (p + 1)
    ensures Block(p, c, i) / PG_SIZE == p
  {
    assert PerArena(c) * BlockSize(c) <= PG_SIZE - HEADER;
    assert i * BlockSize(c) + BlockSize(c) <= PerArena(c) * BlockSize(c) by {
      assert (i + 1) * BlockSize(c) <= PerArena(c) * BlockSize(c);
    }
  }

  lemma BlocksApart(p: nat, c: SizeClass, i: nat, q: nat, d: SizeClass, j: nat)
    requires i < PerArena(c) && j < PerArena(d)
    requires p != q || (c == d && i < j)
    ensures Block(p, c, i) + BlockSize(c) <= Block(q, d, j) || Block(q, d, j) + BlockSize(d) <= Block(p, c, i)
    ensures Block(p, c, i) != Block(q, d, j)
  {
    BlockInPage(p, c, i);
    BlockInPage(q, d, j);
    if p == q {
      assert (i + 1) * BlockSize(c) <= j * BlockSize(c);
    }
  }

  /** The pages, the memory, the arenas by their first page, the free lists, and what was given out
      and not yet freed, with the size that was asked for. */
  datatype State = State(used: seq<bool>, mem: seq<byte>, arenas: map<nat, Arena>, free: FreeLists, live: map<nat, nat>)

  function Pages(a: Arena): nat {
    if a.Small? then 1 else a.pages
  }

  /** The arenas lie in the memory, on used pages, apart from each other. */
  ghost predicate ArenasOk(s: State) {
    && |s.mem| == PG_SIZE * |s.used|
    && (forall p :: p in s.arenas ==>
          && Pages(s.arenas[p]) > 0 && p + Pages(s.arenas[p]) <= |s.used|)
    && (forall p, k :: p in s.arenas && p <= k < p + Pages(s.arenas[p]) ==> s.used[k])
    && (forall p, q :: p in s.arenas && q in s.arenas && p < q ==> p + Pages(s.arenas[p]) <= q)
  }

  /** Address x is block i of the arena on page p. */
  ghost predicate IsBlock(s: State, p: nat, i: nat, x: nat) {
    p in s.arenas && s.arenas[p].Small? && i < PerArena(s.arenas[p].c) && x == Block(p, s.arenas[p].c, i)
  }

  ghost predicate SomeBlock(s: State, x: nat) {
    exists i :: IsBlock(s, x / PG_SIZE, i, x)
  }

  /** The numbers of the blocks of page p, class c, on a free list. */
  ghost function FreeOf(list: seq<nat>, p: nat, c: SizeClass): set<nat>
  {
    set i: nat | i < PerArena(c) && Block(p, c, i) in list
  }

  /** The free lists hold blocks of their class, each once. */
  ghost predicate ListsOk(s: State) {
    && (forall c :: 0 <= c < DESC_CNT ==> NoRepeats(s.free[c]))
    && (forall c, k :: 0 <= c < DESC_CNT && 0 <= k < |s.free[c]| ==>
          SomeBlock(s, s.free[c][k]) && s.arenas[s.free[c][k] / PG_SIZE].c == c)
  }

  /** What is live is a block of a small arena, or starts right after the header of a large one, and
      is big enough for what was asked. */
  ghost predicate LiveAt(s: State, x: nat)
    requires x in s.live
  {
    var p := x / PG_SIZE;
    && p in s.arenas && s.live[x] > 0
    && if s.arenas[p].Small? then SomeBlock(s, x) && s.live[x] <= BlockSize(s.arenas[p].c)
       else x == PG_SIZE * p + HEADER && s.live[x] <= PG_SIZE * s.arenas[p].pages - HEADER
  }

  ghost predicate LiveOk(s: State) {
    forall x {:trigger LiveAt(s, x)} :: x in s.live ==> LiveAt(s, x)
  }

  /** Address x of small arena p is live or on its free list, and not both. */
  ghost predicate Exclusive(s: State, p: nat, x: nat) {
    p in s.arenas && s.arenas[p].Small? && (x in s.live <==> x !in s.free[s.arenas[p].c])
  }

  ghost predicate BlocksOk(s: State) {
    forall p: nat, i: nat, x: nat {:trigger IsBlock(s, p, i, x)} ::
      IsBlock(s, p, i, x) ==> Exclusive(s, p, x)
  }

  ghost predicate LargeOk(s: State) {
    forall p :: p in s.arenas && s.arenas[p].Large? ==> PG_SIZE * p + HEADER in s.live
  }

  ghost predicate Split(s: State) {
    LiveOk(s) && BlocksOk(s) && LargeOk(s)
  }

  /** What is live stays right when its arena keeps its kind. */
  lemma LiveMoves(s: State, s': State, y: nat)
    requires y in s.live && y in s'.live && s'.live[y] == s.live[y] && LiveAt(s, y) && y / PG_SIZE in s'.arenas
    requires var a, a' := s.arenas[y / PG_SIZE], s'.arenas[y / PG_SIZE];
             a' == a || (a.Small? && a'.Small? && a'.c == a.c)
    ensures LiveAt(s', y)
  {
    var p := y / PG_SIZE;
    if s.arenas[p].Small? {
      var i :| IsBlock(s, p, i, y);
      assert IsBlock(s', p, i, y);
    }
  }

  /** cnt counts the free blocks of the arena. */
  ghost predicate Counted(s: State) {
    forall p :: p in s.arenas && s.arenas[p].Small? ==>
        s.arenas[p].cnt == |FreeOf(s.free[s.arenas[p].c], p, s.arenas[p].c)|
  }

  /** No arena has nothing but free blocks: its page would be gone. */
  ghost predicate NoneIdle(s: State) {
    forall p :: p in s.arenas && s.arenas[p].Small? ==> s.arenas[p].cnt < PerArena(s.arenas[p].c)
  }

  /** What holds also in the middle of an operation. */
  ghost predicate Inner(s: State) {
    ArenasOk(s) && ListsOk(s) && Split(s) && Counted(s)
  }

  ghost predicate Inv(s: State) {
    Inner(s) && NoneIdle(s)
  }

  /** The bytes x to x + n and y to y + m have nothing in common. */
  predicate Apart(x: nat, n: nat, y: nat, m: nat) {
    x + n <= y || y + m <= x
  }

  /** Where the bytes of a live address lie: in its own page of a small arena, or in the run of
      pages of its large one. */
  lemma LiveWithin(s: State, x: nat)
    requires Inner(s) && x in s.live
    ensures var p := x / PG_SIZE;
            && p in s.arenas && PG_SIZE * p + HEADER <= x
            && x + s.live[x] <= PG_SIZE * (p + Pages(s.arenas[p])) <= |s.mem|
  {
    assert LiveAt(s, x);
    var p := x / PG_SIZE;
    if s.arenas[p].Small? {
      var i :| IsBlock(s, p, i, x);
      BlockInPage(p, s.arenas[p].c, i);
    }
  }

  /** Live allocations are disjoint. */
  lemma LiveApart(s: State, x: nat, y: nat)
    requires Inner(s) && x in s.live && y in s.live && x != y
    ensures Apart(x, s.live[x], y, s.live[y])
  {
    assert LiveAt(s, x) && LiveAt(s, y);
    LiveWithin(s, x);
    LiveWithin(s, y);
    var p, q := x / PG_SIZE, y / PG_SIZE;
    if p == q {
      assert s.arenas[p].Small?;
      var i :| IsBlock(s, p, i, x);
      var j :| IsBlock(s, q, j, y);
      if i < j {
        BlocksApart(p, s.arenas[p].c, i, q, s.arenas[p].c, j);
      } else {
        BlocksApart(q, s.arenas[p].c, j, p, s.arenas[p].c, i);
      }
    }
  }

  /** A live allocation is disjoint from every header and from every free block. */
  lemma LiveApartFromRest(s: State, x: nat, p: nat, i: nat, f: nat)
    requires Inner(s) && x in s.live && p in s.arenas
    ensures Apart(x, s.live[x], PG_SIZE * p, HEADER)
    ensures IsBlock(s, p, i, f) && f in s.free[s.arenas[p].c] ==> Apart(x, s.live[x], f, BlockSize(s.arenas[p].c))
  {
    assert LiveAt(s, x);
    LiveWithin(s, x);
    var q := x / PG_SIZE;
    if IsBlock(s, p, i, f) && f in s.free[s.arenas[p].c] {
      BlockInPage(p, s.arenas[p].c, i);
      if p == q {
        var j :| IsBlock(s, q, j, x);
        assert f != x;
        if i < j {
          BlocksApart(p, s.arenas[p].c, i, q, s.arenas[p].c, j);
        } else {
          BlocksApart(q, s.arenas[p].c, j, p, s.arenas[p].c, i);
        }
      }
    }
  }

  // ---- the steps ----

  /** The same arenas, but for the counts. */
  ghost predicate SameArenas(s: State, s': State) {
    && s'.arenas.Keys == s.arenas.Keys
    && forall p :: p in s.arenas ==>
         s'.arenas[p] == s.arenas[p] || (s.arenas[p].Small? && s'.arenas[p].Small? && s'.arenas[p].c == s.arenas[p].c)
  }

  lemma SameBlocks(s: State, s': State)
    requires SameArenas(s, s')
    ensures forall p, i, x :: IsBlock(s', p, i, x) <==> IsBlock(s, p, i, x)
    ensures forall x :: SomeBlock(s', x) <==> SomeBlock(s, x)
  {
    forall p, i, x
      ensures IsBlock(s', p, i, x) <==> IsBlock(s, p, i, x)
    {}
  }

  /** A block whose list number is known. */
  lemma BlockOf(s: State, c: SizeClass, k: nat) returns (i: nat)
    requires ListsOk(s) && k < |s.free[c]|
    ensures var x := s.free[c][k]; IsBlock(s, x / PG_SIZE, i, x) && s.arenas[x / PG_SIZE].c == c
  {
    i :| IsBlock(s, s.free[c][k] / PG_SIZE, i, s.free[c][k]);
  }

  /** Bytes x to x + n cleared, and no others. */
  function Cleared(mem: seq<byte>, x: nat, n: nat): (m: seq<byte>)
    requires x + n <= |mem|
    ensures |m| == |mem| && forall k :: 0 <= k < |mem| ==> m[k] == if x <= k < x + n then 0 else mem[k]
  {
    mem[..x] + ZeroBytes(n) + mem[x + n..]
  }

  /** The first free block of class c is given out. */
  ghost predicate Taken(s: State, s': State, c: SizeClass, size: nat) {
    && s.free[c] != [] && s.free[c][0] / PG_SIZE in s.arenas && s.arenas[s.free[c][0] / PG_SIZE].Small?
    && var x := s.free[c][0];
       var a := s.arenas[x / PG_SIZE];
       && s'.used == s.used && |s'.mem| == |s.mem| && a.cnt >= 1
       && s'.free == s.free[c := s.free[c][1..]] && s'.live == s.live[x := size]
       && s'.arenas == s.arenas[x / PG_SIZE := Small(a.c, a.cnt - 1)]
  }

  lemma FirstCounted(s: State, c: SizeClass)
    requires Inner(s) && s.free[c] != []
    ensures var x := s.free[c][0];
            && x / PG_SIZE in s.arenas && s.arenas[x / PG_SIZE].Small? && s.arenas[x / PG_SIZE].c == c
            && s.arenas[x / PG_SIZE].cnt >= 1 && x !in s.live && x + BlockSize(c) <= |s.mem| && SomeBlock(s, x)
  {
    var i := BlockOf(s, c, 0);
    var x := s.free[c][0];
    var p := x / PG_SIZE;
    BlockInPage(p, c, i);
    assert i in FreeOf(s.free[c], p, c);
    assert s.arenas[p].cnt == |FreeOf(s.free[c], p, c)|;
  }

  lemma TakenArenas(s: State, s': State, c: SizeClass, size: nat)
    requires Inner(s) && Taken(s, s', c, size)
    ensures SameArenas(s, s') && ArenasOk(s')
  {
    assert forall p :: p in s.arenas ==> Pages(s'.arenas[p]) == Pages(s.arenas[p]);
  }

  lemma TakenLists(s: State, s': State, c: SizeClass, size: nat)
    requires Inner(s) && Taken(s, s', c, size)
    ensures ListsOk(s')
  {
    hide ArenasOk, Split, Counted;
    TakenArenas(s, s', c, size);
    SameBlocks(s, s');
    forall d, k | 0 <= d < DESC_CNT && 0 <= k < |s'.free[d]|
      ensures SomeBlock(s', s'.free[d][k]) && s'.arenas[s'.free[d][k] / PG_SIZE].c == d
    {
      assert s'.free[d][k] == if d == c then s.free[d][k + 1] else s.free[d][k];
    }
  }

  lemma TakenSplit(s: State, s': State, c: SizeClass, size: nat)
    requires Inner(s) && Taken(s, s', c, size) && 0 < size <= BlockSize(c)
    ensures Split(s')
  {
    hide ArenasOk, Counted;
    FirstCounted(s, c);
    TakenArenas(s, s', c, size);
    SameBlocks(s, s');
    var x := s.free[c][0];
    assert NoRepeats(s.free[c]);
    assert forall y :: y in s.free[c][1..] <==> y in s.free[c] && y != x;
    forall y | y in s'.live
      ensures LiveAt(s', y)
    {
      if y != x {
        assert LiveAt(s, y);
      }
    }
    forall p: nat, i: nat, y: nat | IsBlock(s', p, i, y)
      ensures Exclusive(s', p, y)
    {
      assert IsBlock(s, p, i, y);
      if y == x {
        BlockInPage(p, s.arenas[p].c, i);
      }
    }
  }

  lemma TakenCounted(s: State, s': State, c: SizeClass, size: nat)
    requires Inner(s) && Taken(s, s', c, size)
    ensures Counted(s')
  {
    hide ArenasOk, Split;
    var x := s.free[c][0];
    var i0 := BlockOf(s, c, 0);
    assert NoRepeats(s.free[c]);
    assert forall y :: y in s.free[c][1..] <==> y in s.free[c] && y != x;
    forall p | p in s'.arenas && s'.arenas[p].Small?
      ensures s'.arenas[p].cnt == |FreeOf(s'.free[s'.arenas[p].c], p, s'.arenas[p].c)|
    {
      var d := s'.arenas[p].c;
      assert s.arenas[p].cnt == |FreeOf(s.free[d], p, d)|;
      OneGone(s.free[d], s'.free[d], p, d, x, x / PG_SIZE, i0, c);
    }
  }

  /** Taking block i0 of page q off the lists takes its number from that page's count, and from no
      other. */
  lemma OneGone(list: seq<nat>, list': seq<nat>, p: nat, d: SizeClass, x: nat, q: nat, i0: nat, c: SizeClass)
    requires i0 < PerArena(c) && x == Block(q, c, i0) && (p == q ==> d == c)
    requires if d == c then x in list && forall y :: y in list' <==> y in list && y != x else list' == list
    ensures FreeOf(list', p, d) == if p == q then FreeOf(list, p, d) - {i0} else FreeOf(list, p, d)
    ensures p == q ==> i0 in FreeOf(list, p, d)
  {
    forall i | 0 <= i < PerArena(d)
      ensures Block(p, d, i) == x <==> p == q && i == i0
    {
      if p != q {
        BlocksApart(p, d, i, q, c, i0);
      } else if i < i0 {
        BlocksApart(p, d, i, q, c, i0);
      } else if i0 < i {
        BlocksApart(q, c, i0, p, d, i);
      }
    }
  }

  lemma TakeKeeps(s: State, s': State, c: SizeClass, size: nat)
    requires Inner(s) && Taken(s, s', c, size) && 0 < size <= BlockSize(c)
    ensures Inner(s')
  {
    hide ArenasOk, ListsOk, Split, Counted, Taken;
    TakenArenas(s, s', c, size);
    TakenLists(s, s', c, size);
    TakenSplit(s, s', c, size);
    TakenCounted(s, s', c, size);
  }

  /** Block x of a small arena goes back to the end of its free list. */
  ghost predicate Given(s: State, s': State, x: nat) {
    && x in s.live && x / PG_SIZE in s.arenas && s.arenas[x / PG_SIZE].Small?
    && var a := s.arenas[x / PG_SIZE];
       && s'.used == s.used && s'.mem == s.mem
       && s'.free == s.free[a.c := s.free[a.c] + [x]] && s'.live == s.live - {x}
       && s'.arenas == s.arenas[x / PG_SIZE := Small(a.c, a.cnt + 1)]
  }

  lemma LiveBlock(s: State, x: nat) returns (i: nat)
    requires Inner(s) && x in s.live && x / PG_SIZE in s.arenas && s.arenas[x / PG_SIZE].Small?
    ensures IsBlock(s, x / PG_SIZE, i, x) && x !in s.free[s.arenas[x / PG_SIZE].c]
  {
    assert LiveAt(s, x);
    i :| IsBlock(s, x / PG_SIZE, i, x);
  }

  lemma GivenArenas(s: State, s': State, x: nat)
    requires Inner(s) && Given(s, s', x)
    ensures SameArenas(s, s') && ArenasOk(s')
  {
    assert forall p :: p in s.arenas ==> Pages(s'.arenas[p]) == Pages(s.arenas[p]);
  }

  lemma GivenLists(s: State, s': State, x: nat)
    requires Inner(s) && Given(s, s', x)
    ensures ListsOk(s')
  {
    hide ArenasOk, Counted;
    GivenArenas(s, s', x);
    SameBlocks(s, s');
    var i := LiveBlock(s, x);
    var c := s.arenas[x / PG_SIZE].c;
    assert SomeBlock(s, x);
    forall d, k | 0 <= d < DESC_CNT && 0 <= k < |s'.free[d]|
      ensures SomeBlock(s', s'.free[d][k]) && s'.arenas[s'.free[d][k] / PG_SIZE].c == d
    {
      assert s'.free[d][k] == if d == c && k == |s.free[d]| then x else s.free[d][k];
    }
  }

  lemma GivenSplit(s: State, s': State, x: nat)
    requires Inner(s) && Given(s, s', x)
    ensures Split(s')
  {
    hide ArenasOk, Counted, ListsOk, SomeBlock, IsBlock, LiveAt;
    GivenArenas(s, s', x);
    forall y | y in s'.live
      ensures LiveAt(s', y)
    {
      assert LiveAt(s, y);
      LiveArena(s, y);
      LiveMoves(s, s', y);
    }
    forall p: nat, i: nat, y: nat | IsBlock(s', p, i, y)
      ensures Exclusive(s', p, y)
    {
      GivenBlock(s, s', x, p, i, y);
    }
    forall p | p in s'.arenas && s'.arenas[p].Large?
      ensures PG_SIZE * p + HEADER in s'.live
    {
      assert (PG_SIZE * p + HEADER) / PG_SIZE == p;
    }
  }

  lemma LiveArena(s: State, y: nat)
    requires y in s.live && LiveAt(s, y)
    ensures y / PG_SIZE in s.arenas
  {}

  lemma GivenBlock(s: State, s': State, x: nat, p: nat, i: nat, y: nat)
    requires Inner(s) && Given(s, s', x) && IsBlock(s', p, i, y)
    ensures Exclusive(s', p, y)
  {
    hide ArenasOk, Counted, ListsOk;
    var c := s.arenas[x / PG_SIZE].c;
    assert IsBlock(s, p, i, y);
    BlockInPage(p, s.arenas[p].c, i);
    assert y in s.free[c] + [x] <==> y in s.free[c] || y == x;
  }

  lemma GivenCounted(s: State, s': State, x: nat)
    requires Inner(s) && Given(s, s', x)
    ensures Counted(s')
  {
    hide ArenasOk, ListsOk;
    var i0 := LiveBlock(s, x);
    hide Split;
    var q := x / PG_SIZE;
    var c := s.arenas[q].c;
    assert forall y :: y in s.free[c] <==> y in s.free[c] + [x] && y != x;
    assert x in s.free[c] + [x];
    forall p | p in s'.arenas && s'.arenas[p].Small?
      ensures s'.arenas[p].cnt == |FreeOf(s'.free[s'.arenas[p].c], p, s'.arenas[p].c)|
    {
      var d := s'.arenas[p].c;
      assert s.arenas[p].cnt == |FreeOf(s.free[d], p, d)|;
      OneGone(s'.free[d], s.free[d], p, d, x, q, i0, c);
    }
  }

  lemma GiveKeeps(s: State, s': State, x: nat)
    requires Inner(s) && Given(s, s', x)
    ensures Inner(s')
  {
    hide ArenasOk, ListsOk, Split, Counted, Given;
    GivenArenas(s, s', x);
    GivenLists(s, s', x);
    GivenSplit(s, s', x);
    GivenCounted(s, s', x);
  }

  /** The blocks of a new arena, in order. */
  function AllBlocks(p: nat, c: SizeClass): (l: seq<nat>)
    ensures |l| == PerArena(c) && forall i :: 0 <= i < |l| ==> l[i] == Block(p, c, i)
  {
    seq(PerArena(c), i requires 0 <= i < PerArena(c) => Block(p, c, i))
  }

  lemma AllDistinct(p: nat, c: SizeClass)
    ensures NoRepeats(AllBlocks(p, c))
  {
    var l := AllBlocks(p, c);
    forall i, j | 0 <= i < j < |l|
      ensures l[i] != l[j]
    {
      BlocksApart(p, c, i, p, c, j);
    }
  }

  lemma AllFree(p: nat, c: SizeClass)
    ensures |FreeOf(AllBlocks(p, c), p, c)| == PerArena(c)
  {
    var l := AllBlocks(p, c);
    forall i: nat | i < PerArena(c)
      ensures Block(p, c, i) in l
    {
      assert l[i] == Block(p, c, i);
    }
    assert FreeOf(l, p, c) == Numbers(PerArena(c));
  }

  /** A page that was not used becomes an arena of class c with all its blocks free. */
  ghost predicate Opened(s: State, s': State, p: nat, c: SizeClass) {
    && p < |s.used| && !s.used[p] && s.free[c] == []
    && s'.used == s.used[p := true] && |s'.mem| == |s.mem| && s'.live == s.live
    && s'.arenas == s.arenas[p := Small(c, PerArena(c))] && s'.free == s.free[c := AllBlocks(p, c)]
  }

  lemma OpenedArenas(s: State, s': State, p: nat, c: SizeClass)
    requires Inner(s) && Opened(s, s', p, c)
    ensures ArenasOk(s') && p !in s.arenas
  {
    hide ListsOk, Split, Counted, AllBlocks;
    assert p !in s.arenas;
    forall q | q in s.arenas
      ensures q + Pages(s.arenas[q]) <= p || p < q
    {}
  }

  /** Pages other than p have the blocks they had. */
  lemma OtherPages(s: State, s': State, p: nat)
    requires forall q :: q != p ==>
               (q in s.arenas <==> q in s'.arenas) && (q in s.arenas ==> s'.arenas[q] == s.arenas[q])
    ensures forall q, i, x :: q != p ==> (IsBlock(s', q, i, x) <==> IsBlock(s, q, i, x))
    ensures forall x: nat :: x / PG_SIZE != p ==> (SomeBlock(s', x) <==> SomeBlock(s, x))
  {
    forall q, i, x | q != p
      ensures IsBlock(s', q, i, x) <==> IsBlock(s, q, i, x)
    {}
  }

  lemma OpenedLists(s: State, s': State, p: nat, c: SizeClass)
    requires Inner(s) && Opened(s, s', p, c)
    ensures ListsOk(s')
  {
    hide Split, Counted, AllBlocks;
    OpenedArenas(s, s', p, c);
    hide ArenasOk;
    OtherPages(s, s', p);
    AllDistinct(p, c);
    forall d, k | 0 <= d < DESC_CNT && 0 <= k < |s'.free[d]|
      ensures SomeBlock(s', s'.free[d][k]) && s'.arenas[s'.free[d][k] / PG_SIZE].c == d
    {
      if d == c {
        BlockInPage(p, c, k);
        assert IsBlock(s', p, k, s'.free[d][k]);
      } else {
        assert SomeBlock(s, s.free[d][k]);
      }
    }
  }

  lemma OpenedSplit(s: State, s': State, p: nat, c: SizeClass)
    requires Inner(s) && Opened(s, s', p, c)
    ensures Split(s')
  {
    hide Counted, AllBlocks, IsBlock, SomeBlock, LiveAt;
    OpenedArenas(s, s', p, c);
    hide ArenasOk;
    forall y | y in s'.live
      ensures LiveAt(s', y) && y / PG_SIZE != p
    {
      assert LiveAt(s, y);
      LiveArena(s, y);
      LiveMoves(s, s', y);
    }
    forall q: nat, i: nat, y: nat | IsBlock(s', q, i, y)
      ensures Exclusive(s', q, y)
    {
      OpenedBlock(s, s', p, c, q, i, y);
    }
  }

  lemma OpenedBlock(s: State, s': State, p: nat, c: SizeClass, q: nat, i: nat, y: nat)
    requires Split(s) && Opened(s, s', p, c) && IsBlock(s', q, i, y) && p !in s.arenas
    ensures Exclusive(s', q, y)
  {
    hide AllBlocks, SomeBlock, LargeOk;
    BlockInPage(q, s'.arenas[q].c, i);
    if q == p {
      assert AllBlocks(p, c)[i] == y;
      assert y in s.live ==> LiveAt(s, y);
    } else {
      assert IsBlock(s, q, i, y);
      if s.arenas[q].c == c {
        NotOnPage(p, c, y);
      }
    }
  }

  lemma NotOnPage(p: nat, c: SizeClass, y: nat)
    requires y / PG_SIZE != p
    ensures y !in AllBlocks(p, c)
  {
    forall i | 0 <= i < PerArena(c)
      ensures Block(p, c, i) != y
    {
      BlockInPage(p, c, i);
    }
  }

  lemma OpenedCounted(s: State, s': State, p: nat, c: SizeClass)
    requires Inner(s) && Opened(s, s', p, c)
    ensures Counted(s')
  {
    hide Split, ListsOk, AllBlocks;
    OpenedArenas(s, s', p, c);
    hide ArenasOk;
    AllFree(p, c);
    forall q | q in s'.arenas && s'.arenas[q].Small?
      ensures s'.arenas[q].cnt == |FreeOf(s'.free[s'.arenas[q].c], q, s'.arenas[q].c)|
    {
      if q != p {
        var d := s'.arenas[q].c;
        assert s.arenas[q].cnt == |FreeOf(s.free[d], q, d)|;
        if d == c {
          forall i: nat | i < PerArena(c)
            ensures Block(q, c, i) !in AllBlocks(p, c)
          {
            BlockInPage(q, c, i);
            NotOnPage(p, c, Block(q, c, i));
          }
          assert FreeOf(s'.free[d], q, d) == {} == FreeOf(s.free[d], q, d);
        }
      }
    }
  }

  lemma OpenKeeps(s: State, s': State, p: nat, c: SizeClass)
    requires Inner(s) && Opened(s, s', p, c)
    ensures Inner(s') && p !in s.arenas
  {
    hide ArenasOk, ListsOk, Split, Counted, Opened;
    OpenedArenas(s, s', p, c);
    OpenedLists(s, s', p, c);
    OpenedSplit(s, s', p, c);
    OpenedCounted(s, s', p, c);
  }

  /** The page of an arena whose blocks are all free is given back, and its blocks leave the list. */
  ghost predicate Closed(s: State, s': State, p: nat) {
    && p in s.arenas && s.arenas[p].Small? && p < |s.used|
    && var c := s.arenas[p].c;
       && s.arenas[p].cnt == PerArena(c)
       && s'.used == s.used[p := false] && s'.mem == s.mem && s'.live == s.live && s'.arenas == s.arenas - {p}
       && s'.free == s.free[c := s'.free[c]] && NoRepeats(s'.free[c])
       && forall y :: y in s'.free[c] <==> y in s.free[c] && y / PG_SIZE != p
  }

  lemma FullCount(list: seq<nat>, p: nat, c: SizeClass)
    requires |FreeOf(list, p, c)| == PerArena(c)
    ensures forall i: nat :: i < PerArena(c) ==> Block(p, c, i) in list
  {
    var all, some := Numbers(PerArena(c)), FreeOf(list, p, c);
    assert some <= all;
    if some != all {
      var i :| i in all && i !in some;
      SubsetSize(some, all - {i});
      assert false;
    }
    forall i: nat | i < PerArena(c)
      ensures Block(p, c, i) in list
    {
      assert i in some;
    }
  }

  /** A full count means that every block is on the list, so none is live. */
  lemma FullMeansAll(s: State, p: nat)
    requires Inner(s) && p in s.arenas && s.arenas[p].Small? && s.arenas[p].cnt == PerArena(s.arenas[p].c)
    ensures forall i: nat :: i < PerArena(s.arenas[p].c) ==> Block(p, s.arenas[p].c, i) in s.free[s.arenas[p].c]
    ensures forall y :: y in s.live ==> y / PG_SIZE != p
  {
    hide ArenasOk, ListsOk;
    FullCount(s.free[s.arenas[p].c], p, s.arenas[p].c);
    hide Counted;
    forall y | y in s.live
      ensures y / PG_SIZE != p
    {
      assert LiveAt(s, y);
      if y / PG_SIZE == p {
        var i := LiveBlock(s, y);
        assert false;
      }
    }
  }

  lemma ClosedLists(s: State, s': State, p: nat)
    requires Inner(s) && Closed(s, s', p)
    ensures ListsOk(s')
  {
    hide Split, Counted, ArenasOk;
    OtherPages(s, s', p);
    var c := s.arenas[p].c;
    forall d, k | 0 <= d < DESC_CNT && 0 <= k < |s'.free[d]|
      ensures SomeBlock(s', s'.free[d][k]) && s'.arenas[s'.free[d][k] / PG_SIZE].c == d
    {
      var y := s'.free[d][k];
      assert y in s'.free[d];
      assert y in s.free[d];
      var m :| 0 <= m < |s.free[d]| && s.free[d][m] == y;
      assert SomeBlock(s, s.free[d][m]) && s.arenas[y / PG_SIZE].c == d;
      assert y / PG_SIZE != p;
    }
  }

  lemma ClosedSplit(s: State, s': State, p: nat)
    requires Inner(s) && Closed(s, s', p)
    ensures Split(s')
  {
    hide ListsOk, ArenasOk;
    FullMeansAll(s, p);
    hide Counted;
    OtherPages(s, s', p);
    forall y | y in s'.live
      ensures LiveAt(s', y)
    {
      assert LiveAt(s, y);
    }
    forall q: nat, i: nat, y: nat | IsBlock(s', q, i, y)
      ensures Exclusive(s', q, y)
    {
      assert IsBlock(s, q, i, y);
      BlockInPage(q, s.arenas[q].c, i);
    }
  }

  lemma ClosedCounted(s: State, s': State, p: nat)
    requires Inner(s) && Closed(s, s', p)
    ensures Counted(s') && ArenasOk(s')
  {
    hide Split, ListsOk;
    forall q | q in s'.arenas && s'.arenas[q].Small?
      ensures s'.arenas[q].cnt == |FreeOf(s'.free[s'.arenas[q].c], q, s'.arenas[q].c)|
    {
      var d := s'.arenas[q].c;
      assert s.arenas[q].cnt == |FreeOf(s.free[d], q, d)|;
      forall i: nat | i < PerArena(d)
        ensures Block(q, d, i) in s'.free[d] <==> Block(q, d, i) in s.free[d]
      {
        BlockInPage(q, d, i);
      }
      assert FreeOf(s'.free[d], q, d) == FreeOf(s.free[d], q, d);
    }
  }

  lemma CloseKeeps(s: State, s': State, p: nat)
    requires Inner(s) && Closed(s, s', p)
    ensures Inner(s')
  {
    hide ArenasOk, ListsOk, Split, Counted, Closed;
    ClosedLists(s, s', p);
    ClosedSplit(s, s', p);
    ClosedCounted(s, s', p);
  }

  /** A run of pages is given out as one, or taken back. */
  lemma LargeKeeps(s: State, s': State, p: nat, n: nat, size: nat)
    requires Inv(s) && n > 0 && p + n <= |s.used| && 0 < size <= PG_SIZE * n - HEADER
    requires forall k :: p <= k < p + n ==> !s.used[k]
    requires s'.used == SetRun(s.used, p, n, true) && |s'.mem| == |s.mem| && s'.free == s.free
    requires s'.arenas == s.arenas[p := Large(n)] && s'.live == s.live[PG_SIZE * p + HEADER := size]
    ensures Inv(s') && PG_SIZE * p + HEADER !in s.live && p !in s.arenas
  {
    hide ListsOk, Split, Counted;
    LargeArenas(s, s', p, n);
    hide ArenasOk;
    LargeRest(s, s', p, n, size);
  }

  lemma UsedIn(s: State, q: nat, k: nat)
    requires ArenasOk(s) && q in s.arenas && q <= k < q + Pages(s.arenas[q])
    ensures k < |s.used| && s.used[k]
  {}

  lemma LargeArenas(s: State, s': State, p: nat, n: nat)
    requires ArenasOk(s) && n > 0 && p + n <= |s.used| && (forall k :: p <= k < p + n ==> !s.used[k])
    requires s'.used == SetRun(s.used, p, n, true) && |s'.mem| == |s.mem| && s'.arenas == s.arenas[p := Large(n)]
    ensures ArenasOk(s') && p !in s.arenas
  {
    assert !s.used[p];
    forall q | q in s.arenas
      ensures q + Pages(s.arenas[q]) <= p || p + n <= q
    {
      if q + Pages(s.arenas[q]) > p && q < p + n {
        var k := if q < p then p else q;
        UsedIn(s, q, k);
        assert false;
      }
    }
  }

  lemma LargeRest(s: State, s': State, p: nat, n: nat, size: nat)
    requires Inner(s) && p !in s.arenas && 0 < size <= PG_SIZE * n - HEADER && s'.free == s.free
    requires s'.arenas == s.arenas[p := Large(n)] && s'.live == s.live[PG_SIZE * p + HEADER := size]
    ensures ListsOk(s') && Split(s') && Counted(s') && PG_SIZE * p + HEADER !in s.live && (NoneIdle(s) ==> NoneIdle(s'))
  {
    hide ArenasOk, ListsOk, Counted, IsBlock, SomeBlock;
    ListsFrame(s, s', p);
    CountedFrame(s, s', p);
    var x := PG_SIZE * p + HEADER;
    assert x / PG_SIZE == p;
    forall y | y in s.live
      ensures LiveAt(s', y) && y != x
    {
      assert LiveAt(s, y);
      LiveMoves(s, s', y);
    }
    assert LiveAt(s', x);
    forall q: nat, i: nat, y: nat | IsBlock(s', q, i, y)
      ensures Exclusive(s', q, y)
    {
      LargeBlock(s, s', p, q, i, y);
    }
  }

  /** Blocks of small arenas are not on the pages of large ones. */
  lemma LargeBlock(s: State, s': State, p: nat, q: nat, i: nat, y: nat)
    requires IsBlock(s', q, i, y) && (p in s'.arenas ==> s'.arenas[p].Large?)
    requires q != p && q in s'.arenas ==> q in s.arenas && s'.arenas[q] == s.arenas[q]
    ensures IsBlock(s, q, i, y) && y / PG_SIZE == q && q != p
  {
    BlockInPage(q, s'.arenas[q].c, i);
  }

  /** The lists are not concerned with a large arena. */
  lemma ListsFrame(s: State, s': State, p: nat)
    requires ListsOk(s) && s'.free == s.free && (p in s.arenas ==> s.arenas[p].Large?)
    requires forall q :: q != p && q in s.arenas ==> q in s'.arenas && s'.arenas[q] == s.arenas[q]
    ensures ListsOk(s')
  {
    forall d, k | 0 <= d < DESC_CNT && 0 <= k < |s'.free[d]|
      ensures SomeBlock(s', s'.free[d][k]) && s'.arenas[s'.free[d][k] / PG_SIZE].c == d
    {
      var i := BlockOf(s, d, k);
      assert IsBlock(s', s.free[d][k] / PG_SIZE, i, s.free[d][k]);
    }
  }

  lemma CountedFrame(s: State, s': State, p: nat)
    requires Counted(s) && s'.free == s.free && (p in s'.arenas ==> s'.arenas[p].Large?)
    requires forall q :: q != p && q in s'.arenas ==> q in s.arenas && s'.arenas[q] == s.arenas[q]
    ensures Counted(s')
  {}

  lemma LargeGoneKeeps(s: State, s': State, x: nat)
    requires Inv(s) && x in s.live && x / PG_SIZE in s.arenas && s.arenas[x / PG_SIZE].Large?
    requires x / PG_SIZE + s.arenas[x / PG_SIZE].pages <= |s.used|
    requires s'.used == SetRun(s.used, x / PG_SIZE, s.arenas[x / PG_SIZE].pages, false) && s'.mem == s.mem
    requires s'.free == s.free
    requires s'.arenas == s.arenas - {x / PG_SIZE} && s'.live == s.live - {x}
    ensures Inv(s') && x == PG_SIZE * (x / PG_SIZE) + HEADER
  {
    hide ListsOk, Counted, LargeOk, IsBlock, SomeBlock;
    var p := x / PG_SIZE;
    assert LiveAt(s, x);
    ListsFrame(s, s', p);
    CountedFrame(s, s', p);
    LargeGoneSplit(s, s', x);
  }

  lemma OneInLarge(s: State, x: nat, y: nat)
    requires x in s.live && y in s.live && LiveAt(s, x) && LiveAt(s, y) && x != y && s.arenas[x / PG_SIZE].Large?
    ensures x / PG_SIZE != y / PG_SIZE
  {}

  lemma LargeGoneSplit(s: State, s': State, x: nat)
    requires Inner(s) && x in s.live && x / PG_SIZE in s.arenas && s.arenas[x / PG_SIZE].Large?
    requires s'.free == s.free && s'.arenas == s.arenas - {x / PG_SIZE} && s'.live == s.live - {x}
    ensures Split(s')
  {
    hide ArenasOk, ListsOk, Counted, IsBlock, SomeBlock, LiveAt;
    var p := x / PG_SIZE;
    forall y | y in s'.live
      ensures LiveAt(s', y)
    {
      assert LiveAt(s, x) && LiveAt(s, y);
      LiveArena(s, y);
      OneInLarge(s, x, y);
      LiveMoves(s, s', y);
    }
    forall q: nat, i: nat, y: nat | IsBlock(s', q, i, y)
      ensures Exclusive(s', q, y)
    {
      LargeBlock(s, s', p, q, i, y);
    }
    forall q | q in s'.arenas && s'.arenas[q].Large?
      ensures PG_SIZE * q + HEADER in s'.live
    {
      assert (PG_SIZE * q + HEADER) / PG_SIZE == q;
    }
  }

  // ---- the heap ----

  /** More pages used, by no arena. */
  lemma LeakKeeps(s: State, s': State)
    requires Inv(s) && |s'.used| == |s.used|
    requires forall k :: 0 <= k < |s.used| && s.used[k] ==> s'.used[k]
    requires s' == s.(used := s'.used)
    ensures Inv(s')
  {
    hide ListsOk, Counted, LiveOk, BlocksOk, LargeOk, NoneIdle;
    SameRest(s, s');
  }

  lemma SameRest(s: State, s': State)
    requires ListsOk(s) && Split(s) && Counted(s) && NoneIdle(s) && s' == s.(used := s'.used)
    ensures ListsOk(s') && Split(s') && Counted(s') && NoneIdle(s')
  {
    assert forall p, i, x :: IsBlock(s', p, i, x) <==> IsBlock(s, p, i, x);
    forall x | x in s'.live
      ensures LiveAt(s', x)
    {
      assert LiveAt(s, x);
      LiveMoves(s, s', x);
    }
    forall d, k | 0 <= d < DESC_CNT && 0 <= k < |s'.free[d]|
      ensures SomeBlock(s', s'.free[d][k])
    {
      var i := BlockOf(s, d, k);
      assert IsBlock(s', s.free[d][k] / PG_SIZE, i, s.free[d][k]);
    }
  }

  /** Pages that are not used hold nothing live. */
  lemma UnusedApart(s: State, y: nat, p: nat, n: nat)
    requires Inner(s) && y in s.live && n > 0 && p + n <= |s.used| && forall k :: p <= k < p + n ==> !s.used[k]
    ensures Apart(y, s.live[y], PG_SIZE * p, PG_SIZE * n)
  {
    hide ListsOk, Split, Counted;
    LiveWithin(s, y);
    var q: nat := y / PG_SIZE;
    if q + Pages(s.arenas[q]) > p && q < p + n {
      UsedIn(s, q, if q < p then p else q);
      assert false;
    }
  }

  /** The bytes of everything that was live are what they were. */
  ghost predicate BytesKept(s: State, s': State) {
    |s'.mem| == |s.mem| && forall y, k :: y in s.live && y <= k < y + s.live[y] && k < |s.mem| ==> s'.mem[k] == s.mem[k]
  }

  /** n bytes from x on are there, and zero. */
  predicate ZeroAt(mem: seq<byte>, x: int, n: nat) {
    0 <= x && x + n <= |mem| && forall k :: x <= k < x + n ==> mem[k] == 0
  }

  lemma ClearedKeeps(s: State, s': State, x: nat, n: nat)
    requires x + n <= |s.mem| && s'.mem == Cleared(s.mem, x, n) && forall y :: y in s.live ==> Apart(y, s.live[y], x, n)
    ensures BytesKept(s, s')
  {}

  /** A request for whole pages: the lowest run that is long enough becomes an arena of its own; without
      frames for it the run stays marked; and without a run nothing happens. */
  ghost predicate LargeGiven(s: State, s': State, size: nat, frames: bool, x: int) {
    var n := (size + HEADER + PG_SIZE - 1) / PG_SIZE;
    n > 0
    && var r := FirstRun(s.used, n);
       if r == -1 then x == -1 && s' == s
       else if !frames then x == -1 && s' == s.(used := SetRun(s.used, r, n, true))
       else x == PG_SIZE * r + HEADER
            && s' == State(SetRun(s.used, r, n, true), s'.mem, s.arenas[r := Large(n)], s.free, s.live[x := size])
  }

  /** A request for a block of class c: the first free one; or the first one of the lowest unused page, whose
      others are then the free ones; without a frame for it the page stays marked. */
  ghost predicate SmallGiven(s: State, s': State, c: SizeClass, size: nat, frames: bool, x: int) {
    if s.free[c] != [] then
      && x == s.free[c][0] && x / PG_SIZE in s.arenas && s.arenas[x / PG_SIZE].Small? && s.arenas[x / PG_SIZE].cnt >= 1
      && s' == State(s.used, s'.mem, s.arenas[x / PG_SIZE := Small(c, s.arenas[x / PG_SIZE].cnt - 1)],
                     s.free[c := s.free[c][1..]], s.live[x := size])
    else
      var r := FirstRun(s.used, 1);
      if r == -1 then x == -1 && s' == s
      else if !frames then x == -1 && s' == s.(used := s.used[r := true])
      else x == PG_SIZE * r + HEADER
           && s' == State(s.used[r := true], s'.mem, s.arenas[r := Small(c, PerArena(c) - 1)],
                          s.free[c := AllBlocks(r, c)[1..]], s.live[x := size])
  }

  /** The list without the members of `gone`, in the same order. */
  function Kept(list: seq<nat>, gone: set<nat>): seq<nat> {
    if list == [] then []
    else Kept(list[..|list| - 1], gone) + if list[|list| - 1] in gone then [] else [list[|list| - 1]]
  }

  lemma {:induction false} KeptIn(list: seq<nat>, gone: set<nat>)
    ensures forall y :: y in Kept(list, gone) <==> y in list && y !in gone
    ensures NoRepeats(list) ==> NoRepeats(Kept(list, gone))
  {
    if list != [] {
      var front := list[..|list| - 1];
      assert list == front + [list[|list| - 1]];
      KeptIn(front, gone);
    }
  }

  lemma {:induction false} KeptTwice(list: seq<nat>, a: set<nat>, b: set<nat>)
    ensures Kept(Kept(list, a), b) == Kept(list, a + b)
  {
    if list != [] {
      var front, last := list[..|list| - 1], list[|list| - 1];
      KeptTwice(front, a, b);
      var m := Kept(front, a) + if last in a then [] else [last];
      assert Kept(list, a) == m;
      if last in a {
        assert m == Kept(front, a);
      } else {
        assert m[..|m| - 1] == Kept(front, a);
      }
    }
  }

  lemma {:induction false} KeptAll(list: seq<nat>, gone: set<nat>)
    requires forall y :: y in list ==> y !in gone
    ensures Kept(list, gone) == list
  {
    if list != [] {
      var front := list[..|list| - 1];
      assert list == front + [list[|list| - 1]];
      KeptAll(front, gone);
    }
  }

  lemma {:induction false} KeptWithout(list: seq<nat>, j: nat)
    requires NoRepeats(list) && j < |list|
    ensures Kept(list, {list[j]}) == Lists.Without(list, j)
  {
    var front, last := list[..|list| - 1], list[|list| - 1];
    if j == |list| - 1 {
      assert forall y :: y in front ==> y != last;
      KeptAll(front, {last});
    } else {
      KeptWithout(front, j);
      assert Lists.Without(list, j) == Lists.Without(front, j) + [last];
    }
  }

  /** The first k blocks of page p. */
  function BlocksOf(p: nat, c: SizeClass, k: nat): set<nat> {
    set i: nat | i < k :: Block(p, c, i)
  }

  lemma MoreBlocks(p: nat, c: SizeClass, k: nat)
    ensures BlocksOf(p, c, k + 1) == BlocksOf(p, c, k) + {Block(p, c, k)}
  {
    hide Block;
  }

  lemma NotYetGone(list: seq<nat>, p: nat, c: SizeClass, k: nat)
    requires k < PerArena(c) && Block(p, c, k) in list
    ensures Block(p, c, k) in Kept(list, BlocksOf(p, c, k))
  {
    hide Kept, Block;
    forall i: nat | i < k
      ensures Block(p, c, k) != Block(p, c, i)
    {
      BlocksApart(p, c, i, p, c, k);
    }
    KeptIn(list, BlocksOf(p, c, k));
  }

  /** What sys_free does: the allocation goes; a run of pages goes back; and so does the page of a small
      block, its blocks leaving the free list, exactly when all the page's blocks are free then. */
  ghost predicate Freed(s: State, s': State, x: nat) {
    && x / PG_SIZE in s.arenas && s'.live == s.live - {x} && s'.mem == s.mem
    && match s.arenas[x / PG_SIZE]
       case Large(n) =>
         && x / PG_SIZE + n <= |s.used| && s'.used == SetRun(s.used, x / PG_SIZE, n, false)
         && s'.arenas == s.arenas - {x / PG_SIZE} && s'.free == s.free
       case Small(c, cnt) =>
         if cnt + 1 == PerArena(c) then
           && x / PG_SIZE < |s.used| && s'.used == s.used[x / PG_SIZE := false] && s'.arenas == s.arenas - {x / PG_SIZE}
           && s'.free == s.free[c := Kept(s.free[c], BlocksOf(x / PG_SIZE, c, PerArena(c)))]
         else
           && s'.used == s.used && s'.arenas == s.arenas[x / PG_SIZE := Small(c, cnt + 1)]
           && s'.free == s.free[c := s.free[c] + [x]]
  }

  class Heap {
    var used: seq<bool>
    var mem: seq<byte>
    var arenas: map<nat, Arena>
    var free: FreeLists
    ghost var live: map<nat, nat>

    ghost function S(): State
      reads this
    {
      State(used, mem, arenas, free, live)
    }

    /** block_desc_init, on a heap of unused pages. */
    constructor (pages: nat)
      ensures Inv(S()) && live == map[] && arenas == map[] && used == seq(pages, _ => false)
    {
      used := seq(pages, _ => false);
      mem := ZeroBytes(PG_SIZE * pages);
      arenas, live := map[], map[];
      free := seq(DESC_CNT, _ => []);
    }

    /** malloc_page: the lowest run of n unused pages. When the frames do not last, the pages stay
        marked and the caller gets none. */
    method MallocPage(n: nat, frames: bool) returns (p: int)
      requires n > 0
      modifies this`used
      ensures var r := FirstRun(old(used), n);
              && p == (if frames then r else -1)
              && used == if r == -1 then old(used) else SetRun(old(used), r, n, true)
      ensures p != -1 ==> 0 <= p && p + n <= |used| && forall k :: p <= k < p + n ==> !old(used)[k]
    {
      var r := FirstRun(used, n);
      if r == -1 {
        return -1;
      }
      var cnt := 0;
      while cnt < n
        invariant cnt <= n && |used| == |old(used)| && used == SetRun(old(used), r, cnt, true)
      {
        used := used[r + cnt := true];
        cnt := cnt + 1;
      }
      p := if frames then r else -1;
    }

    /** The desc_index loop: the smallest class that is big enough. */
    static method ClassOf(size: nat) returns (c: SizeClass)
      requires 0 < size <= 1024
      ensures size <= BlockSize(c) && forall d: SizeClass :: d < c ==> BlockSize(d) < size
    {
      var d := 0;
      while size > BlockSize(d)
        invariant 0 <= d < DESC_CNT && forall e: SizeClass :: e < d ==> BlockSize(e) < size
        decreases DESC_CNT - d
      {
        d := d + 1;
      }
      c := d;
    }

    /** The part of sys_malloc that cuts a new page into blocks. No block is on the list yet, as the
        code asserts. */
    method OpenArena(c: SizeClass, frames: bool) returns (p: int)
      requires Inv(S()) && free[c] == []
      modifies this`used, this`mem, this`arenas, this`free
      ensures p == (if frames then FirstRun(old(used), 1) else -1)
      ensures p == -1 ==> Inv(S()) && S() == old(S()).(used := used)
      ensures var r := FirstRun(old(used), 1);
              p == -1 ==> used == if r == -1 then old(used) else old(used)[r := true]
      ensures p != -1 ==> p >= 0 && Opened(old(S()), S(), p, c) && Inner(S()) && BytesKept(old(S()), S())
    {
      hide Inv, Inner, AllBlocks;
      ghost var s := S();
      InvIsInner(s);
      p := MallocPage(1, frames);
      if p == -1 {
        LeakKeeps(s, S());
        return;
      }
      assert used == s.used[p := true];
      PageFits(s, p);
      forall y | y in s.live
        ensures Apart(y, s.live[y], PG_SIZE * p, PG_SIZE)
      {
        UnusedApart(s, y, p, 1);
      }
      mem := Cleared(mem, PG_SIZE * p, PG_SIZE);
      ClearedKeeps(s, S(), PG_SIZE * p, PG_SIZE);
      arenas := arenas[p := Small(c, PerArena(c))];
      AllDistinct(p, c);
      var i := 0;
      while i < PerArena(c)
        invariant i <= PerArena(c) && free == s.free[c := AllBlocks(p, c)[..i]]
        invariant used == s.used[p := true] && arenas == s.arenas[p := Small(c, PerArena(c))]
        invariant live == s.live && BytesKept(s, S()) && |mem| == |s.mem|
      {
        assert AllBlocks(p, c)[i] == Block(p, c, i);
        assert Block(p, c, i) !in free[c];
        free := free[c := free[c] + [Block(p, c, i)]];
        assert AllBlocks(p, c)[..i + 1] == AllBlocks(p, c)[..i] + [Block(p, c, i)];
        i := i + 1;
      }
      assert AllBlocks(p, c)[..i] == AllBlocks(p, c);
      OpenKeeps(s, S(), p, c);
    }

    /** The end of sys_malloc for small sizes: the first free block, cleared. */
    method TakeFirst(c: SizeClass, size: nat) returns (x: nat)
      requires Inner(S()) && free[c] != [] && 0 < size <= BlockSize(c)
      modifies this`mem, this`arenas, this`free, this`live
      ensures x == old(free[c][0]) && Taken(old(S()), S(), c, size) && Inner(S()) && BytesKept(old(S()), S())
      ensures x !in old(live) && x + BlockSize(c) <= |mem| && mem == Cleared(old(mem), x, BlockSize(c))
    {
      hide Inner;
      ghost var s := S();
      x := free[c][0];
      FirstCounted(s, c);
      FirstApart(s, c);
      var p := x / PG_SIZE;
      free := free[c := free[c][1..]];
      mem := Cleared(mem, x, BlockSize(c));
      ClearedKeeps(s, S(), x, BlockSize(c));
      arenas := arenas[p := Small(arenas[p].c, arenas[p].cnt - 1)];
      live := live[x := size];
      TakeKeeps(s, S(), c, size);
    }

    /** sys_malloc, in a pool of `pool` bytes; -1 is NULL. Of the pages, the arenas and the free lists only
        what the request needs changes. */
    method Malloc(size: nat, pool: nat, frames: bool) returns (x: int)
      requires Inv(S()) && (size + HEADER + PG_SIZE - 1) / PG_SIZE < 3840
      modifies this
      ensures Inv(S()) && x >= -1 && BytesKept(old(S()), S())
      ensures x == -1 ==> S() == old(S()).(used := used)
      ensures x != -1 ==> x !in old(live) && live == old(live)[x := size] && ZeroAt(mem, x, size)
      ensures x == -1 <==> size == 0 || size >= pool || !Fulfils(old(S()), size, frames)
      ensures size == 0 || size >= pool ==> S() == old(S())
      ensures 0 < size < pool && size > 1024 ==> LargeGiven(old(S()), S(), size, frames, x)
      ensures 0 < size < pool && size <= 1024 ==>
                exists c: SizeClass :: Smallest(c, size) && SmallGiven(old(S()), S(), c, size, frames, x)
    {
      hide Inv, Inner, LargeGiven, SmallGiven, Fulfils, Smallest;
      ghost var s := S();
      if size == 0 || size >= pool {
        return -1;
      }
      if size > 1024 {
        x := MallocLarge(size, frames);
      } else {
        x := MallocSmall(size, frames);
      }
    }

    method MallocLarge(size: nat, frames: bool) returns (x: int)
      requires Inv(S()) && size > 1024
      modifies this
      ensures Inv(S()) && x >= -1 && BytesKept(old(S()), S())
      ensures x == -1 ==> S() == old(S()).(used := used)
      ensures x != -1 ==> x !in old(live) && live == old(live)[x := size] && ZeroAt(mem, x, size)
      ensures x == -1 <==> !Fulfils(old(S()), size, frames)
      ensures LargeGiven(old(S()), S(), size, frames, x)
    {
      hide Inv, Inner, LowestRun;
      ghost var s := S();
      InvIsInner(s);
      var n := (size + HEADER + PG_SIZE - 1) / PG_SIZE;
      var p := MallocPage(n, frames);
      if p == -1 {
        LeakKeeps(s, S());
        return -1;
      }
      PagesFit(s, p, n);
      forall y | y in s.live
        ensures Apart(y, s.live[y], PG_SIZE * p, PG_SIZE * n)
      {
        UnusedApart(s, y, p, n);
      }
      mem := Cleared(mem, PG_SIZE * p, PG_SIZE * n);
      ClearedKeeps(s, S(), PG_SIZE * p, PG_SIZE * n);
      arenas := arenas[p := Large(n)];
      x := PG_SIZE * p + HEADER;
      live := live[x := size];
      LargeKeeps(s, S(), p, n, size);
    }

    method MallocSmall(size: nat, frames: bool) returns (x: int)
      requires Inv(S()) && 0 < size <= 1024
      modifies this
      ensures Inv(S()) && x >= -1 && BytesKept(old(S()), S())
      ensures x == -1 ==> S() == old(S()).(used := used)
      ensures x != -1 ==> x !in old(live) && live == old(live)[x := size] && ZeroAt(mem, x, size)
      ensures x == -1 <==> !Fulfils(old(S()), size, frames)
      ensures exists c: SizeClass :: Smallest(c, size) && SmallGiven(old(S()), S(), c, size, frames, x)
    {
      hide Inv, Inner, NoneIdle;
      ghost var s := S();
      InvIsInner(s);
      var c := ClassOf(size);
      FulfilsSmall(s, size, frames, c);
      var p := -1;
      if free[c] == [] {
        p := OpenArena(c, frames);
        if p == -1 {
          assert SmallGiven(s, S(), c, size, frames, -1);
          return -1;
        }
      }
      ghost var s1 := S();
      x := TakeFirst(c, size);
      NoIdleAfter(s, s1, S(), p, c, size);
      SmallFromParts(s, s1, S(), p, c, size, frames, x);
      BytesKeptTwice(s, s1, S());
    }

    /** list_remove of every block of page p; each is on the list, as sys_free asserts. */
    static method RemoveBlocks(list: seq<nat>, p: nat, c: SizeClass) returns (l: seq<nat>)
      requires NoRepeats(list) && forall i: nat :: i < PerArena(c) ==> Block(p, c, i) in list
      ensures NoRepeats(l)
      ensures forall y :: y in l <==> y in list && forall i: nat :: i < PerArena(c) ==> y != Block(p, c, i)
      ensures l == Kept(list, BlocksOf(p, c, PerArena(c)))
    {
      hide Kept, NoRepeats, Block;
      l := list;
      var k := 0;
      assert BlocksOf(p, c, 0) == {};
      KeptAll(list, {});
      while k < PerArena(c)
        invariant k <= PerArena(c) && NoRepeats(l) && l == Kept(list, BlocksOf(p, c, k))
      {
        var x := Block(p, c, k);
        NotYetGone(list, p, c, k);
        l := RemoveOne(l, x);
        KeptTwice(list, BlocksOf(p, c, k), {x});
        MoreBlocks(p, c, k);
        k := k + 1;
      }
      KeptIn(list, BlocksOf(p, c, k));
    }

    static method RemoveOne(list: seq<nat>, x: nat) returns (l: seq<nat>)
      requires NoRepeats(list) && x in list
      ensures NoRepeats(l) && l == Kept(list, {x}) && forall y :: y in l <==> y in list && y != x
    {
      var j := 0;
      while list[j] != x
        invariant j < |list| && x !in list[..j]
        decreases |list| - j
      {
        j := j + 1;
      }
      l := Lists.Without(list, j);
      KeptWithout(list, j);
      forall y | y in list && y != x
        ensures y in l
      {
        var m :| 0 <= m < |list| && list[m] == y;
        assert l[if m < j then m else m - 1] == y;
      }
    }

    /** sys_free of what sys_malloc gave out. The page of a small block goes back exactly when all the
        page's blocks are free then. */
    method Free(x: nat)
      requires Inv(S()) && x in live
      modifies this
      ensures Inv(S()) && Freed(old(S()), S(), x)
    {
      hide Inv, Inner, NoneIdle;
      ghost var s := S();
      InvIsInner(s);
      LiveIn(s, x);
      var p := x / PG_SIZE;
      var a := arenas[p];
      if a.Large? {
        used := SetRun(used, p, a.pages, false);
        arenas := arenas - {p};
        live := live - {x};
        LargeGoneKeeps(s, S(), x);
        return;
      }
      free := free[a.c := free[a.c] + [x]];
      arenas := arenas[p := Small(a.c, a.cnt + 1)];
      live := live - {x};
      ghost var s1 := S();
      GiveKeeps(s, s1, x);
      if arenas[p].cnt == PerArena(a.c) {
        FullMeansAll(s1, p);
        ListFacts(s1, a.c);
        var list := RemoveBlocks(free[a.c], p, a.c);
        PageBlocks(s1, p, a.c, list);
        LastBlockKept(s, x, p, a.c);
        free := free[a.c := list];
        used := used[p := false];
        arenas := arenas - {p};
        assert arenas == s1.arenas - {p} && arenas == s.arenas - {p};
        CloseKeeps(s1, S(), p);
      }
      NoIdleFreed(s, S(), p);
    }
  }

  /** A freed block is one of its page's, so the list without these does not have it. */
  lemma LastBlockKept(s: State, x: nat, p: nat, c: SizeClass)
    requires Inner(s) && x in s.live && p == x / PG_SIZE && p in s.arenas && s.arenas[p].Small? && s.arenas[p].c == c
    ensures Kept(s.free[c] + [x], BlocksOf(p, c, PerArena(c))) == Kept(s.free[c], BlocksOf(p, c, PerArena(c)))
  {
    hide ArenasOk, ListsOk, Counted;
    assert LiveAt(s, x);
    assert x in BlocksOf(p, c, PerArena(c));
    assert (s.free[c] + [x])[..|s.free[c]|] == s.free[c];
  }

  lemma InvIsInner(s: State)
    requires Inv(s)
    ensures Inner(s) && NoneIdle(s)
  {}

  lemma LiveIn(s: State, x: nat)
    requires Inner(s) && x in s.live
    ensures x / PG_SIZE in s.arenas && x / PG_SIZE + Pages(s.arenas[x / PG_SIZE]) <= |s.used|
    ensures Pages(s.arenas[x / PG_SIZE]) > 0
  {
    LiveWithin(s, x);
  }

  lemma ListFacts(s: State, c: SizeClass)
    requires Inner(s)
    ensures NoRepeats(s.free[c])
  {}

  /** Off a free list, the blocks of page p are its addresses on page p. */
  lemma PageBlocks(s: State, p: nat, c: SizeClass, list: seq<nat>)
    requires Inner(s) && p in s.arenas && s.arenas[p].Small? && s.arenas[p].c == c
    requires forall y :: y in list <==> y in s.free[c] && forall i: nat :: i < PerArena(c) ==> y != Block(p, c, i)
    ensures forall y :: y in list <==> y in s.free[c] && y / PG_SIZE != p
  {
    hide ArenasOk, Split, Counted;
    forall y | y in s.free[c]
      ensures y in list <==> y / PG_SIZE != p
    {
      var k :| 0 <= k < |s.free[c]| && s.free[c][k] == y;
      var i := BlockOf(s, c, k);
      assert i < PerArena(c);
      forall j: nat | j < PerArena(c)
        ensures Block(p, c, j) / PG_SIZE == p
      {
        BlockInPage(p, c, j);
      }
    }
  }

  lemma NoIdleFreed(s: State, s': State, p: nat)
    requires NoneIdle(s) && Inner(s') && p in s.arenas && s.arenas[p].Small?
    requires if s.arenas[p].cnt + 1 == PerArena(s.arenas[p].c) then s'.arenas == s.arenas - {p}
             else s'.arenas == s.arenas[p := Small(s.arenas[p].c, s.arenas[p].cnt + 1)]
    ensures Inv(s')
  {
    hide Inner;
    assert s.arenas[p].cnt < PerArena(s.arenas[p].c);
  }

  lemma PagesFit(s: State, p: nat, n: nat)
    requires Inner(s) && p + n <= |s.used|
    ensures PG_SIZE * p + PG_SIZE * n <= |s.mem|
  {}

  lemma PageFits(s: State, p: nat)
    requires Inner(s) && p < |s.used|
    ensures PG_SIZE * p + PG_SIZE <= |s.mem|
  {}

  lemma FirstApart(s: State, c: SizeClass)
    requires Inner(s) && s.free[c] != []
    ensures forall y :: y in s.live ==> Apart(y, s.live[y], s.free[c][0], BlockSize(c))
  {
    var i := BlockOf(s, c, 0);
    forall y | y in s.live
      ensures Apart(y, s.live[y], s.free[c][0], BlockSize(c))
    {
      LiveApartFromRest(s, y, s.free[c][0] / PG_SIZE, i, s.free[c][0]);
    }
  }

  /** Whether there is room for a request: a free block of its class, or pages with frames. */
  ghost predicate Fulfils(s: State, size: nat, frames: bool) {
    if size > 1024 then frames && FirstRun(s.used, (size + HEADER + PG_SIZE - 1) / PG_SIZE) != -1
    else exists c: SizeClass :: Smallest(c, size) && (s.free[c] != [] || (frames && FirstRun(s.used, 1) != -1))
  }

  ghost predicate Smallest(c: SizeClass, size: nat) {
    size <= BlockSize(c) && forall d: SizeClass :: d < c ==> BlockSize(d) < size
  }

  lemma FulfilsSmall(s: State, size: nat, frames: bool, c: SizeClass)
    requires 0 < size <= 1024 && Smallest(c, size)
    ensures Fulfils(s, size, frames) <==> s.free[c] != [] || (frames && FirstRun(s.used, 1) != -1)
  {
    assert forall d: SizeClass :: Smallest(d, size) ==> d == c;
  }

  lemma NoIdleAfter(s: State, s1: State, s2: State, p: int, c: SizeClass, size: nat)
    requires NoneIdle(s) && Inner(s1) && Inner(s2) && Taken(s1, s2, c, size)
    requires if p == -1 then s1 == s else p >= 0 && Opened(s, s1, p, c)
    ensures Inv(s2)
  {
    hide Inner;
    FirstIn(s1, c);
    if p != -1 {
      assert s1.free[c][0] == AllBlocks(p, c)[0];
      BlockInPage(p, c, 0);
    }
    assert forall q :: q in s2.arenas && q != s1.free[c][0] / PG_SIZE ==> s2.arenas[q] == s1.arenas[q];
    assert s1.arenas[s1.free[c][0] / PG_SIZE].cnt <= PerArena(c);
  }

  lemma SmallFromParts(s: State, s1: State, s2: State, p: int, c: SizeClass, size: nat, frames: bool, x: nat)
    requires Inner(s1) && Taken(s1, s2, c, size) && s1.free[c] != [] && x == s1.free[c][0]
    requires if s.free[c] != [] then s1 == s else frames && p == FirstRun(s.used, 1) && p >= 0 && Opened(s, s1, p, c)
    ensures SmallGiven(s, s2, c, size, frames, x)
  {
    hide Inner, AllBlocks;
    FirstIn(s1, c);
    if s.free[c] == [] {
      assert s1.free[c][0] == Block(p, c, 0);
      BlockInPage(p, c, 0);
      assert SetRun(s.used, p, 1, true) == s.used[p := true];
    }
  }

  lemma FirstIn(s: State, c: SizeClass)
    requires Inner(s) && s.free[c] != []
    ensures s.free[c][0] / PG_SIZE in s.arenas && s.arenas[s.free[c][0] / PG_SIZE].Small?
    ensures s.arenas[s.free[c][0] / PG_SIZE].c == c
  {
    FirstCounted(s, c);
  }

  lemma BytesKeptTwice(s: State, s1: State, s2: State)
    requires BytesKept(s, s1) && BytesKept(s1, s2) && s1.live == s.live
    ensures BytesKept(s, s2)
  {}

  /** Every arena has something live: its page went back with its last live block. */
  lemma ArenaHasLive(s: State, p: nat)
    requires Inv(s) && p in s.arenas
    ensures exists y :: y in s.live && y / PG_SIZE == p
  {
    hide ArenasOk, ListsOk;
    if s.arenas[p].Large? {
      assert (PG_SIZE * p + HEADER) / PG_SIZE == p;
    } else {
      var c := s.arenas[p].c;
      var some := FreeOf(s.free[c], p, c);
      assert some != Numbers(PerArena(c));
      assert some <= Numbers(PerArena(c));
      var i :| i in Numbers(PerArena(c)) && i !in some;
      BlockInPage(p, c, i);
      assert IsBlock(s, p, i, Block(p, c, i));
      assert Block(p, c, i) in s.live;
    }
  }

  /** sys_malloc, and sys_free of what it gave: pages, arenas and live allocations are what they were, and so
      are the members of each free list. */
  method MallocFree(h: Heap, size: nat, pool: nat, frames: bool) returns (x: int)
    requires Inv(h.S()) && (size + HEADER + PG_SIZE - 1) / PG_SIZE < 3840
    modifies h
    ensures Inv(h.S()) && (x == -1 <==> size == 0 || size >= pool || !Fulfils(old(h.S()), size, frames))
    ensures x != -1 ==> h.used == old(h.used) && h.arenas == old(h.arenas) && h.live == old(h.live)
    ensures x != -1 ==> forall c: SizeClass, y :: y in h.free[c] <==> y in old(h.free)[c]
  {
    hide Inv, LargeGiven, SmallGiven, Fulfils, Smallest, BytesKept, ZeroAt, Freed;
    ghost var s := h.S();
    x := h.Malloc(size, pool, frames);
    if x != -1 {
      ghost var s1 := h.S();
      h.Free(x);
      if size > 1024 {
        LargeUndone(s, s1, h.S(), size, frames, x);
      } else {
        ghost var c: SizeClass :| Smallest(c, size) && SmallGiven(s, s1, c, size, frames, x);
        SmallUndone(s, s1, h.S(), c, size, frames, x);
      }
    }
  }

  lemma LargeUndone(s: State, s1: State, s2: State, size: nat, frames: bool, x: nat)
    requires Inv(s) && LargeGiven(s, s1, size, frames, x) && Freed(s1, s2, x) && x !in s.live
    ensures s2.used == s.used && s2.arenas == s.arenas && s2.live == s.live && s2.free == s.free
  {
    hide Inv;
    var n := (size + HEADER + PG_SIZE - 1) / PG_SIZE;
    var r := FirstRun(s.used, n);
    assert (PG_SIZE * r + HEADER) / PG_SIZE == r;
    UnusedNoArena(s, r);
    assert SetRun(SetRun(s.used, r, n, true), r, n, false) == s.used;
  }

  lemma UnusedNoArena(s: State, p: nat)
    requires Inv(s) && p < |s.used| && !s.used[p]
    ensures p !in s.arenas
  {
    hide ListsOk, Split, Counted, NoneIdle;
    if p in s.arenas {
      UsedIn(s, p, p);
    }
  }

  lemma SmallUndone(s: State, s1: State, s2: State, c: SizeClass, size: nat, frames: bool, x: nat)
    requires Inv(s) && SmallGiven(s, s1, c, size, frames, x) && Freed(s1, s2, x) && x !in s.live
    ensures s2.used == s.used && s2.arenas == s.arenas && s2.live == s.live
    ensures forall d: SizeClass, y :: y in s2.free[d] <==> y in s.free[d]
  {
    hide Inv, SmallGiven, Freed;
    if s.free[c] != [] {
      ReusedUndone(s, s1, s2, c, size, frames, x);
    } else {
      FreshUndone(s, s1, s2, c, size, frames, x);
    }
  }

  lemma ReusedUndone(s: State, s1: State, s2: State, c: SizeClass, size: nat, frames: bool, x: nat)
    requires Inv(s) && SmallGiven(s, s1, c, size, frames, x) && Freed(s1, s2, x) && x !in s.live && s.free[c] != []
    ensures s2.used == s.used && s2.arenas == s.arenas && s2.live == s.live
    ensures s2.free == s.free[c := s.free[c][1..] + [x]] && s.free[c] == [x] + s.free[c][1..]
    ensures forall d: SizeClass, y :: y in s2.free[d] <==> y in s.free[d]
  {
    hide Inv, Inner, AllBlocks, BlocksOf, Kept, FirstRun, NoneIdle;
    InvIsInner(s);
    FirstIn(s, c);
    NotIdle(s, x / PG_SIZE);
    assert s1.arenas[x / PG_SIZE] == Small(c, s.arenas[x / PG_SIZE].cnt - 1);
    assert s2.arenas == s.arenas;
    Rotated(s.free[c], x);
  }

  lemma Rotated(l: seq<nat>, x: nat)
    requires l != [] && l[0] == x
    ensures l == [x] + l[1..] && forall y :: y in l[1..] + [x] <==> y in l
  {}

  lemma FreshUndone(s: State, s1: State, s2: State, c: SizeClass, size: nat, frames: bool, x: nat)
    requires Inv(s) && SmallGiven(s, s1, c, size, frames, x) && Freed(s1, s2, x) && x !in s.live && s.free[c] == []
    ensures s2.used == s.used && s2.arenas == s.arenas && s2.live == s.live && s2.free == s.free
  {
    hide Inv, AllBlocks, BlocksOf, Kept;
    var r := FirstRun(s.used, 1);
    assert (PG_SIZE * r + HEADER) / PG_SIZE == r;
    UnusedNoArena(s, r);
    OnlyThose(r, c);
    assert s.used[r := true][r := false] == s.used;
  }

  lemma NotIdle(s: State, p: nat)
    requires Inv(s) && p in s.arenas && s.arenas[p].Small?
    ensures s.arenas[p].cnt < PerArena(s.arenas[p].c)
  {
    hide Inner;
  }

  lemma HasFirst(l: seq<nat>)
    requires l != []
    ensures exists y :: y in l
  {
    assert l[0] in l;
  }

  lemma OnlyThose(r: nat, c: SizeClass)
    ensures Kept(AllBlocks(r, c)[1..], BlocksOf(r, c, PerArena(c))) == []
  {
    hide Kept;
    var l := AllBlocks(r, c)[1..];
    KeptIn(l, BlocksOf(r, c, PerArena(c)));
    forall y | y in l
      ensures y in BlocksOf(r, c, PerArena(c))
    {
      var k :| 0 <= k < |l| && l[k] == y;
      assert y == Block(r, c, k + 1);
    }
    var e := Kept(l, BlocksOf(r, c, PerArena(c)));
    if e != [] {
      HasFirst(e);
    }
  }
}
