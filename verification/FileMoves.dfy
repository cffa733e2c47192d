/** A regular file's blocks and bytes, and what the steps of file_write do to them. */
module FileMoves {
  import opened Codec
  import opened Store
  import opened Moves
  import opened DirMoves

  /** The byte limit of 140 blocks. */
  const MAX_SIZE := 71680

  /** i_size / BLOCK_SIZE and i_size % BLOCK_SIZE. */
  function Blk(p: nat): nat {
    p / 512
  }

  function Off(p: nat): nat {
    p % 512
  }

  /** How much of a write fits in the block where it starts. */
  function ChunkLen(size: nat, left: nat): nat {
    if left < 512 - Off(size) then left else 512 - Off(size)
  }

  lemma ChunkFits(size: nat, left: nat)
    requires left > 0
    ensures 0 < ChunkLen(size, left) <= left && Off(size) + ChunkLen(size, left) <= 512
    ensures ChunkLen(size, left) == left || Off(size + ChunkLen(size, left)) == 0
  {}

  /** The first n blocks are there and no other, with the table exactly when some are indirect. */
  ghost predicate Blocks(v: View, n: nat) {
    && n <= 140
    && (forall k :: 0 <= k < 140 ==> (v.ab[k] != 0 <==> k < n))
    && (v.tab != 0 <==> n > 12)
  }

  /** A file never written owns nothing; any other owns exactly blocks 0..size/512. */
  ghost predicate FileShape(v: View) {
    || (v.size == 0 && Blocks(v, 0))
    || (v.size < MAX_SIZE && Blocks(v, Blk(v.size) + 1))
  }

  /** The bytes of a file. */
  function Content(v: View): (c: seq<byte>)
    requires v.size <= MAX_SIZE
    ensures |c| == v.size
  {
    seq(v.size, p requires 0 <= p < v.size => v.body[Blk(p)][Off(p)])
  }

  lemma ContentAt(v: View, p: nat)
    requires v.size <= MAX_SIZE && p < v.size
    ensures Content(v)[p] == v.body[Blk(p)][Off(p)]
  {}

  /** Sectors beyond the size do not matter. */
  lemma ContentDepends(v: View, v': View)
    requires v.size == v'.size <= MAX_SIZE
    requires forall k :: 0 <= k < 140 && 512 * k < v.size ==> v'.body[k] == v.body[k]
    ensures Content(v') == Content(v)
  {
    forall p | 0 <= p < v.size
      ensures Content(v')[p] == Content(v)[p]
    {
      assert v'.body[Blk(p)] == v.body[Blk(p)];
    }
  }

  /** The sector that file_write builds: the old bytes before offset `off`, then the chunk, then
      whatever the buffer held. */
  function Patched(base: Sector, off: nat, chunk: seq<byte>): Sector
    requires off + |chunk| <= 512
  {
    base[..off] + chunk + base[off + |chunk|..]
  }

  /** Patching the sector where a file ends, and advancing its size, appends the chunk. The rest
      of the sector may be anything. */
  lemma ChunkAppends(v: View, base: Sector, chunk: seq<byte>)
    requires v.size + |chunk| <= MAX_SIZE && v.size < MAX_SIZE && Off(v.size) + |chunk| <= 512
    requires base[..Off(v.size)] == v.body[Blk(v.size)][..Off(v.size)]
    ensures var v' := v.(size := v.size + |chunk|, body := v.body[Blk(v.size) := Patched(base, Off(v.size), chunk)]);
            Content(v') == Content(v) + chunk
  {
    hide Content;
    var q, off := Blk(v.size), Off(v.size);
    var v' := v.(size := v.size + |chunk|, body := v.body[q := Patched(base, off, chunk)]);
    forall p | 0 <= p < v'.size
      ensures Content(v')[p] == (Content(v) + chunk)[p]
    {
      ContentAt(v', p);
      if p < v.size {
        ContentAt(v, p);
        if Blk(p) == q {
          assert Patched(base, off, chunk)[Off(p)] == base[..off][Off(p)];
        }
      } else {
        assert Blk(p) == q && Off(p) == off + (p - v.size);
      }
    }
  }

  // ---- the allocation loop ----

  /** The free data blocks. */
  ghost function FreeBlocks(s: Fs): set<nat> {
    set b | s.ds <= b < |s.disk| && !Bit(s, b)
  }

  /** The inode's direct pointers after entries from..to of the block list were filled in. */
  function SecWith(sec: seq<nat>, loc: seq<nat>, from: nat, to: nat): (r: seq<nat>)
    requires |sec| == 13 && |loc| == 140 && from <= to <= 140
    ensures |r| == 13
  {
    seq(13, k requires 0 <= k < 13 => if from <= k < to && k < 12 then loc[k] else sec[k])
  }

  /** Blocks from..to of file f are newly marked, in the local list and the direct pointers. */
  ghost predicate RangeAllocated(s: Fs, s': Fs, f: nat, from: nat, to: nat, loc: seq<nat>, loc': seq<nat>,
                                 added: map<nat, (nat, nat)>) {
    && f in s.mem && |loc| == 140 && |loc'| == 140 && from <= to <= 140 && |s'.bb| == |s.bb|
    && s' == PutNode(s.(bb := s'.bb), f, s.mem[f].node.(sec := SecWith(s.mem[f].node.sec, loc', from, to)))
    && (forall b :: b in added ==>
        FreeBlock(s, b) && added[b].0 == f && from <= added[b].1 < to && loc'[added[b].1] == b)
    && (forall k :: from <= k < to ==> loc'[k] in added && added[loc'[k]] == (f, k))
    && (forall k :: 0 <= k < 140 && !(from <= k < to) ==> loc'[k] == loc[k])
    && (forall b :: s.ds <= b < s.ds + |s.bb| ==> Bit(s', b) == (Bit(s, b) || b in added))
    && |FreeBlocks(s')| + (to - from) == |FreeBlocks(s)|
  }

  lemma RangeStart(s: Fs, f: nat, from: nat, loc: seq<nat>)
    requires f in s.mem && |loc| == 140 && from <= 140
    ensures RangeAllocated(s, s, f, from, from, loc, loc, map[])
  {
    assert SecWith(s.mem[f].node.sec, loc, from, from) == s.mem[f].node.sec;
  }

  lemma FreeShrinks(s: Fs, s': Fs, b: nat)
    requires FreeBlock(s, b) && s'.ds == s.ds && |s'.disk| == |s.disk| && b - s.ds < |s.bb|
    requires s'.bb == s.bb[b - s.ds := true]
    ensures |FreeBlocks(s')| + 1 == |FreeBlocks(s)|
  {
    assert FreeBlocks(s') == FreeBlocks(s) - {b};
  }

  lemma FreeNone(s: Fs)
    requires Geometry(s)
    ensures FreeBlocks(s) == {} <==> forall b :: s.ds <= b < s.ds + |s.bb| ==> Bit(s, b)
  {
    forall b | FreeBlocks(s) == {} && s.ds <= b < s.ds + |s.bb|
      ensures Bit(s, b)
    {
      assert b !in FreeBlocks(s);
    }
  }

  /** One more block. */
  lemma RangeStep(s: Fs, s1: Fs, s2: Fs, s': Fs, f: nat, from: nat, to: nat, loc: seq<nat>, loc1: seq<nat>,
                  added: map<nat, (nat, nat)>, b: nat)
    requires Geometry(s) && RangeAllocated(s, s1, f, from, to, loc, loc1, added) && to < 140
    requires BlockAllocated(s1, s2, b)
    requires s' == if to < 12 then PutNode(s2, f, s2.mem[f].node.(sec := s2.mem[f].node.sec[to := b])) else s2
    ensures RangeAllocated(s, s', f, from, to + 1, loc, loc1[to := b], added[b := (f, to)]) && b != 0
  {
    hide FreeBlocks, Bit, BlockAllocated;
    RangeLowest(s, s1, s2, f, from, to, loc, loc1, added, b);
    var sec, loc' := s.mem[f].node.sec, loc1[to := b];
    SameMarks(s2, s');
    FreeShrinks(s1, s2, b);
    var now := if to < 12 then SecWith(sec, loc1, from, to)[to := b] else SecWith(sec, loc1, from, to);
    assert SecWith(sec, loc', from, to + 1) == now;
  }

  lemma SameMarks(s: Fs, s': Fs)
    requires s' == s.(mem := s'.mem)
    ensures (forall x :: Bit(s', x) == Bit(s, x)) && FreeBlocks(s') == FreeBlocks(s)
  {
    assert forall x :: Bit(s', x) == Bit(s, x);
  }

  lemma RangeFacts(s: Fs, s': Fs, f: nat, from: nat, to: nat, loc: seq<nat>, loc': seq<nat>,
                   added: map<nat, (nat, nat)>)
    requires Geometry(s) && RangeAllocated(s, s', f, from, to, loc, loc', added)
    ensures Geometry(s') && f in s'.mem && |loc'| == 140 && |FreeBlocks(s')| + (to - from) == |FreeBlocks(s)|
  {}

  lemma NoFree(s: Fs, s': Fs)
    requires Geometry(s) && BlockAllocated(s, s', -1)
    ensures |FreeBlocks(s)| == 0
  {
    FreeNone(s);
  }

  lemma AllocatedMem(s: Fs, s': Fs, lba: int)
    requires BlockAllocated(s, s', lba)
    ensures s'.mem == s.mem
  {}

  lemma RangeLowest(s: Fs, s1: Fs, s2: Fs, f: nat, from: nat, to: nat, loc: seq<nat>, loc1: seq<nat>,
                    added: map<nat, (nat, nat)>, b: nat)
    requires Geometry(s) && RangeAllocated(s, s1, f, from, to, loc, loc1, added) && BlockAllocated(s1, s2, b)
    ensures FreeBlock(s, b) && FreeBlock(s1, b) && b !in added && b != 0 && b < |s.disk| && b - s.ds < |s.bb|
    ensures s2 == s1.(bb := s1.bb[b - s.ds := true])
    ensures forall x :: s.ds <= x < s.ds + |s.bb| ==> Bit(s2, x) == (Bit(s1, x) || x == b)
  {
    hide OwnedBy, Views;
  }

  // ---- the four allocation cases ----

  /** A block list with entries from..to taken from `loc`. */
  function Spliced(ab: seq<nat>, loc: seq<nat>, from: nat, to: nat): (r: seq<nat>)
    requires |ab| == 140 && |loc| == 140
    ensures |r| == 140 && forall k :: 0 <= k < 140 ==> r[k] == if from <= k < to then loc[k] else ab[k]
  {
    seq(140, k requires 0 <= k < 140 => if from <= k < to then loc[k] else ab[k])
  }

  /** The blocks `added` are entries from..to of `loc`, and the table if that is new. */
  ghost predicate RangeAdds(f: nat, was: nat, tab: nat, from: nat, to: nat, loc: seq<nat>,
                            added: map<nat, (nat, nat)>) {
    && |loc| == 140 && from <= to <= 140 && 0 !in added
    && (forall b :: b in added ==> added[b].0 == f)
    && (forall b :: b in added ==>
          (added[b].1 == 140 && b == tab && was == 0) || (from <= added[b].1 < to && loc[added[b].1] == b))
    && (forall k :: from <= k < to ==> loc[k] in added && added[loc[k]] == (f, k))
    && (tab == was || (was == 0 && tab in added && added[tab] == (f, 140)))
  }

  lemma RangeRefs(f: nat, v: View, v': View, from: nat, to: nat, loc: seq<nat>, added: map<nat, (nat, nat)>)
    requires RangeAdds(f, v.tab, v'.tab, from, to, loc, added) && Blocks(v, from)
    requires v'.ab == Spliced(v.ab, loc, from, to)
    ensures AddsRefs(f, v, v', added)
    ensures (to > 12 <==> v'.tab != 0) ==> Blocks(v', to)
  {
    assert forall k :: from <= k < to ==> loc[k] != 0;
  }

  /** File f before and after it got blocks from..to, with the table sector rewritten when there
      are indirect blocks. */
  ghost predicate RangeState(s: Fs, s': Fs, f: nat, from: nat, to: nat, loc: seq<nat>, tab: nat,
                             added: map<nat, (nat, nat)>)
    requires |loc| == 140
  {
    var ab := Spliced(V(s, f).ab, loc, from, to);
    && f in s.mem && f in s'.mem && RangeAdds(f, V(s, f).tab, tab, from, to, loc, added)
    && s' == s.(disk := s'.disk, bb := s'.bb, mem := s'.mem, own := s'.own) && |s'.bb| == |s.bb|
    && s'.mem ==
         s.mem[f := s.mem[f].(node := s.mem[f].node.(sec := SecWith(s.mem[f].node.sec, loc, from, to)[12 := tab]))]
    && s'.own == s.own + added
    && (forall b :: b in added ==> FreeBlock(s, b))
    && (forall b :: s.ds <= b < s.ds + |s.bb| ==> Bit(s', b) == (Bit(s, b) || b in added))
    && (to > 12 <==> tab != 0)
    && (if to > 12 then tab < |s.disk| && Words(ab[12..]) && s'.disk == s.disk[tab := EncTable(ab[12..])]
        else s'.disk == s.disk)
  }

  lemma RangeGrows(s: Fs, s': Fs, f: nat, from: nat, to: nat, loc: seq<nat>, tab: nat, added: map<nat, (nat, nat)>)
    requires Owned(s) && f in s.nodes && Blocks(V(s, f), from) && from < to
    requires |loc| == 140 && RangeState(s, s', f, from, to, loc, tab, added)
    ensures Grows(s, s', f, added, Spliced(V(s, f).ab, loc, from, to), tab)
  {
    hide V, OwnedBy, SectorsOf, Table, EncTable, AddsRefs, RangeAdds, Words, Marked;
    var v := V(s, f);
    var ab := Spliced(v.ab, loc, from, to);
    var n, n' := s.mem[f].node, s'.mem[f].node;
    PartsOfView(s, f);
    assert n'.sec[..12] == ab[..12] by {
      assert forall k :: 0 <= k < 12 ==> n'.sec[k] == ab[k] by {
        assert forall k :: 0 <= k < 12 ==> n.sec[..12][k] == v.ab[..12][k];
      }
    }
    if to > 12 {
      TableRoundTrip(ab[12..]);
    } else {
      assert ab[12..] == v.ab[12..];
      assert ab[12..] == seq(128, _ => 0);
    }
    RangeRefs(f, v, ViewRec(n'.size, tab, ab, SectorsOf(s'.disk, ab)), from, to, loc, added);
    RangeStore(s, s', f, from, to, loc, tab, added);
  }

  lemma RangeStore(s: Fs, s': Fs, f: nat, from: nat, to: nat, loc: seq<nat>, tab: nat, added: map<nat, (nat, nat)>)
    requires |loc| == 140 && RangeState(s, s', f, from, to, loc, tab, added)
    ensures GrowsStore(s, s', added, V(s, f).tab, tab)
  {
    hide V, EncTable, Words;
    assert s.own - {} == s.own;
  }

  /** The file after the allocation cases: all blocks it will use, its size and bytes as before. */
  ghost predicate FileReady(s: Fs, s': Fs, f: nat, from: nat, to: nat) {
    && SameRest(s, s') && OnlyNode(s.mem, s'.mem, f) && Owned(s') && OthersSame(s, s', f) && Leaked(s') == Leaked(s)
    && Blocks(V(s', f), to) && V(s', f).size == V(s, f).size
    && from <= 140 && (forall k :: 0 <= k < from ==> V(s', f).body[k] == V(s, f).body[k])
  }

  lemma RangeReady(s: Fs, s': Fs, f: nat, from: nat, to: nat, loc: seq<nat>, tab: nat, added: map<nat, (nat, nat)>)
    requires Owned(s) && f in s.nodes && Blocks(V(s, f), from) && from < to
    requires |loc| == 140 && RangeState(s, s', f, from, to, loc, tab, added)
    ensures FileReady(s, s', f, from, to) && V(s', f).ab == Spliced(V(s, f).ab, loc, from, to)
  {
    hide V, Owned, SectorsOf, EncTable, Grows, Words, Leaked, OthersSame, SameRest, Bit, AddsRefs;
    var v := V(s, f);
    var ab := Spliced(v.ab, loc, from, to);
    RangeGrows(s, s', f, from, to, loc, tab, added);
    Grow(s, s', f, added, ab, tab);
    PartsOfView(s, f);
    RangeRefs(f, v, V(s', f), from, to, loc, added);
    forall k | 0 <= k < from
      ensures V(s', f).body[k] == v.body[k]
    {
      GrowKeepsSector(s, s', f, added, ab, tab, k);
    }
  }

  /** The rewritten table's words are block numbers. */
  lemma SplicedWords(s: Fs, f: nat, from: nat, to: nat, loc: seq<nat>)
    requires Owned(s) && f in s.nodes && |loc| == 140
    requires forall k :: from <= k < to && k < 140 ==> loc[k] < WORD
    ensures Words(Spliced(V(s, f).ab, loc, from, to)[12..])
  {
    hide V, Owned;
    BlocksAreWords(s, f);
    var ab := V(s, f).ab;
    var w, w' := ab[12..], Spliced(ab, loc, from, to)[12..];
    assert forall i :: 0 <= i < 128 ==> w'[i] == (if from <= 12 + i < to then loc[12 + i] else w[i]);
  }

  /** Situations 1 and 3: the range was allocated with the table as it was. */
  lemma AssembleSame(s: Fs, s1: Fs, s': Fs, f: nat, from: nat, to: nat, loc0: seq<nat>, loc: seq<nat>,
                     added: map<nat, (nat, nat)>)
    requires Owned(s) && f in s.nodes && f in s.mem && Blocks(V(s, f), from) && from < to
    requires RangeAllocated(s, s1, f, from, to, loc0, loc, added)
    requires (to > 12 <==> V(s, f).tab != 0) && (from > 12 ==> loc0[12..] == V(s, f).ab[12..])
    requires s'.disk ==
             (if to > 12 && V(s, f).tab < |s.disk| && Words(loc[12..])
              then s.disk[V(s, f).tab := EncTable(loc[12..])] else s.disk)
    requires s' == s1.(own := s.own + added, disk := s'.disk)
    ensures to > 12 ==> V(s, f).tab < |s.disk| && Words(loc[12..])
    ensures RangeState(s, s', f, from, to, loc, V(s, f).tab, added)
  {
    hide V, Owned, EncTable, Words, Leaked, Bit, FreeBlocks, Spliced, RangeAdds;
    var v := V(s, f);
    PartsOfView(s, f);
    OwnerOf(s, f, 140);
    AllocatedWords(s, s1, f, from, to, loc0, loc, added);
    SplicedWords(s, f, from, to, loc);
    if to > 12 {
      SplicedTail(v.ab, loc0, loc, from, to);
    }
    var sec := s.mem[f].node.sec;
    assert SecWith(sec, loc, from, to)[12 := v.tab] == SecWith(sec, loc, from, to);
    BitsStay(s1, s');
    AllocatedAdds(s, s1, f, from, to, loc0, loc, added, v.tab);
  }

  lemma BitsStay(s1: Fs, s': Fs)
    requires s' == s1.(own := s'.own, disk := s'.disk)
    ensures forall b :: Bit(s', b) == Bit(s1, b)
  {}

  /** Blocks that were handed out are block numbers. */
  lemma AllocatedWords(s: Fs, s1: Fs, f: nat, from: nat, to: nat, loc0: seq<nat>, loc: seq<nat>,
                       added: map<nat, (nat, nat)>)
    requires Owned(s) && RangeAllocated(s, s1, f, from, to, loc0, loc, added)
    ensures s.ds > 0 && forall k :: from <= k < to ==> loc[k] < WORD
  {
    hide OwnedBy, Marked, FreeBlocks;
  }

  lemma SplicedTail(ab: seq<nat>, loc0: seq<nat>, loc: seq<nat>, from: nat, to: nat)
    requires |ab| == 140 && |loc0| == 140 && |loc| == 140 && from <= to <= 140 && to > 12
    requires from > 12 ==> loc0[12..] == ab[12..]
    requires forall k :: 0 <= k < 140 && !(from <= k < to) ==> loc[k] == loc0[k]
    ensures from > 12 ==> loc[12..] == Spliced(ab, loc, from, to)[12..]
  {
    if from > 12 {
      var w := Spliced(ab, loc, from, to)[12..];
      forall i {:trigger w[i]} | 0 <= i < 128
        ensures loc[12..][i] == w[i]
      {
        assert loc0[12..][i] == loc0[12 + i] && ab[12..][i] == ab[12 + i];
      }
    }
  }

  lemma AllocatedAdds(s: Fs, s1: Fs, f: nat, from: nat, to: nat, loc0: seq<nat>, loc: seq<nat>,
                      added: map<nat, (nat, nat)>, tab: nat)
    requires s.ds > 0 && RangeAllocated(s, s1, f, from, to, loc0, loc, added)
    ensures RangeAdds(f, tab, tab, from, to, loc, added)
  {
    hide FreeBlocks, Bit;
  }

  /** Situation 2: the blocks handed out after the table t was allocated, and t itself. */
  lemma TableBits(s: Fs, sb: Fs, st: Fs, s1: Fs, f: nat, t: nat, from: nat, to: nat, loc0: seq<nat>, loc: seq<nat>,
                  added: map<nat, (nat, nat)>)
    requires Owned(s) && BlockAllocated(s, sb, t) && f in sb.mem
    requires st == PutNode(sb, f, sb.mem[f].node.(sec := sb.mem[f].node.sec[12 := t]))
    requires RangeAllocated(st, s1, f, from, to, loc0, loc, added)
    ensures FreeBlock(s, t) && 0 < t < |s.disk| && forall b :: b in added ==> FreeBlock(s, b) && b != t
    ensures forall b :: s.ds <= b < s.ds + |s.bb| ==> Bit(s1, b) == (Bit(s, b) || b in added[t := (f, 140)])
  {
    hide OwnedBy, Views, SecWith, FreeBlocks;
    LowestFree(s, sb, t);
    assert forall x :: Bit(st, x) == Bit(sb, x);
    assert forall x :: s.ds <= x < s.ds + |s.bb| ==> Bit(sb, x) == (Bit(s, x) || x == t);
  }

  lemma TableAdds(s: Fs, st: Fs, s1: Fs, f: nat, t: nat, from: nat, to: nat, loc0: seq<nat>, loc: seq<nat>,
                  added: map<nat, (nat, nat)>)
    requires Geometry(s) && RangeAllocated(st, s1, f, from, to, loc0, loc, added)
    requires t != 0 && forall b :: b in added ==> FreeBlock(s, b) && b != t
    ensures RangeAdds(f, 0, t, from, to, loc, added[t := (f, 140)])
    ensures forall k :: from <= k < to ==> loc[k] < WORD
  {
    hide SecWith, FreeBlocks, PutNode;
  }

  /** Situation 2: the table t was allocated first. */
  lemma AssembleTable(s: Fs, sb: Fs, st: Fs, s1: Fs, s': Fs, f: nat, t: nat, from: nat, to: nat, loc0: seq<nat>,
                      loc: seq<nat>,
                      added: map<nat, (nat, nat)>)
    requires Owned(s) && f in s.nodes && f in s.mem && Blocks(V(s, f), from) && from <= 12 < to
    requires BlockAllocated(s, sb, t) && st == PutNode(sb, f, s.mem[f].node.(sec := s.mem[f].node.sec[12 := t]))
    requires RangeAllocated(st, s1, f, from, to, loc0, loc, added)
    requires loc0[12..] == seq(128, _ => 0)
    requires Words(loc[12..]) && t < |s.disk| ==> s'.disk == s.disk[t := EncTable(loc[12..])]
    requires s' == s1.(own := s.own + added[t := (f, 140)], disk := s'.disk)
    ensures t < |s.disk| && Words(loc[12..])
    ensures RangeState(s, s', f, from, to, loc, t, added[t := (f, 140)])
  {
    hide V, EncTable, Words, RangeAdds, FreeBlocks, OwnedBy, Marked;
    var v := V(s, f);
    PartsOfView(s, f);
    TableBits(s, sb, st, s1, f, t, from, to, loc0, loc, added);
    TableAdds(s, st, s1, f, t, from, to, loc0, loc, added);
    SplicedWords(s, f, from, to, loc);
    assert loc[12..] == Spliced(v.ab, loc, from, to)[12..] by {
      assert forall i :: 0 <= i < 128 ==> loc0[12..][i] == loc0[12 + i] && v.ab[12 + i] == 0;
    }
    var sec := s.mem[f].node.sec;
    assert SecWith(sec, loc, from, to)[12 := t] == SecWith(sec[12 := t], loc, from, to);
    assert forall x :: Bit(s', x) == Bit(s1, x);
  }

  /** The local list's indirect part can be written as a table. */
  lemma RangeTableOk(s: Fs, s1: Fs, f: nat, from: nat, to: nat, loc0: seq<nat>, loc: seq<nat>,
                     added: map<nat, (nat, nat)>)
    requires Owned(s) && f in s.nodes && f in s.mem && 12 < from <= to && V(s, f).tab != 0
    requires RangeAllocated(s, s1, f, from, to, loc0, loc, added) && loc0[12..] == V(s, f).ab[12..]
    ensures Words(loc[12..]) && V(s, f).tab < |s.disk|
  {
    hide V, OwnedBy, SecWith, FreeBlocks;
    OwnerOf(s, f, 140);
    BlocksAreWords(s, f);
    forall i {:trigger loc[12..][i]} | 0 <= i < 128
      ensures loc[12..][i] < WORD
    {
      assert loc0[12..][i] == loc0[12 + i] && loc[12..][i] == loc[12 + i];
    }
  }

  lemma AcrossTableOk(s: Fs, sb: Fs, st: Fs, s1: Fs, f: nat, t: nat, from: nat, to: nat, loc0: seq<nat>, loc: seq<nat>,
                      added: map<nat, (nat, nat)>)
    requires Owned(s) && BlockAllocated(s, sb, t) && f in sb.mem
    requires st == PutNode(sb, f, sb.mem[f].node.(sec := sb.mem[f].node.sec[12 := t]))
    requires RangeAllocated(st, s1, f, from, to, loc0, loc, added) && loc0[12..] == seq(128, _ => 0)
    ensures Words(loc[12..]) && t < |s.disk|
  {
    hide V, OwnedBy, SecWith, FreeBlocks, Views;
    LowestFree(s, sb, t);
    assert Geometry(st) by {
      assert forall x :: Bit(st, x) == (Bit(s, x) || x == t);
    }
    forall i {:trigger loc[12..][i]} | 0 <= i < 128
      ensures loc[12..][i] < WORD
    {
      assert loc0[12..][i] == loc0[12 + i] && loc[12..][i] == loc[12 + i];
    }
  }

  lemma TableTaken(s: Fs, sb: Fs, f: nat, t: nat)
    requires Owned(s) && BlockAllocated(s, sb, t)
    ensures sb == s.(bb := sb.bb)
  {}

  lemma TableTakenToo(s: Fs, sb: Fs, st: Fs, f: nat, t: nat)
    requires Owned(s) && BlockAllocated(s, sb, t) && f in sb.mem
    requires st == PutNode(sb, f, sb.mem[f].node.(sec := sb.mem[f].node.sec[12 := t]))
    ensures Geometry(st) && |FreeBlocks(st)| + 1 == |FreeBlocks(s)|
  {
    hide OwnedBy;
    LowestFree(s, sb, t);
    assert forall x :: s.ds <= x < s.ds + |s.bb| ==> Bit(st, x) == (Bit(s, x) || x == t);
    assert FreeBlocks(st) == FreeBlocks(s) - {t};
  }

  /** The local list agrees with the file's on the blocks that will be written. */
  ghost predicate Covers(loc: seq<nat>, v: View, from: nat, to: nat) {
    |loc| == 140 && to <= 140 && forall k :: from - 1 <= k < to && 0 <= k ==> loc[k] == v.ab[k]
  }

  lemma SplicedCovers(loc0: seq<nat>, loc: seq<nat>, v: View, v': View, from: nat, to: nat)
    requires |loc| == 140 && |loc0| == 140 && 0 < from <= to <= 140 && v'.ab == Spliced(v.ab, loc, from, to)
    requires loc[from - 1] == loc0[from - 1] == v.ab[from - 1]
    ensures Covers(loc, v', from, to)
  {}

  lemma RangeLoc(s: Fs, s': Fs, f: nat, from: nat, to: nat, loc: seq<nat>, loc': seq<nat>, added: map<nat, (nat, nat)>)
    requires RangeAllocated(s, s', f, from, to, loc, loc', added)
    ensures |loc'| == 140 && (forall k :: 0 <= k < 140 && !(from <= k < to) ==> loc'[k] == loc[k])
    ensures s' == s.(bb := s'.bb, mem := s'.mem) && f in s'.mem
    ensures s'.mem[f].node.sec[12] == s.mem[f].node.sec[12]
  {}

  // ---- file_write ----

  /** How many blocks a file that has `from` and will use `to` takes, its table included. */
  function Need(from: nat, to: nat): nat
    requires from <= to
  {
    to - from + if from <= 12 < to then 1 else 0
  }

  /** What the chunk loop keeps: file f has the first `w` bytes of the buffer appended. */
  ghost predicate Appended(s: Fs, s': Fs, f: nat, bytes: seq<byte>) {
    && SameRest(s, s') && OnlyNode(s.mem, s'.mem, f) && Owned(s') && OthersSame(s, s', f) && Leaked(s') == Leaked(s)
    && s'.own == s.own && s'.bb == s.bb && V(s', f).ab == V(s, f).ab && V(s', f).tab == V(s, f).tab
    && V(s', f).size == V(s, f).size + |bytes| <= MAX_SIZE
    && Content(V(s', f)) == Content(V(s, f)) + bytes
  }

  /** One chunk. */
  lemma AppendStep(s: Fs, s1: Fs, f: nat, bytes: seq<byte>, base: Sector, chunk: seq<byte>)
    requires f in s.nodes && Appended(s, s1, f, bytes)
    requires V(s1, f).size + |chunk| <= MAX_SIZE && V(s1, f).size < MAX_SIZE && Off(V(s1, f).size) + |chunk| <= 512
    requires V(s1, f).ab[Blk(V(s1, f).size)] != 0
    requires base[..Off(V(s1, f).size)] == V(s1, f).body[Blk(V(s1, f).size)][..Off(V(s1, f).size)]
    ensures V(s1, f).ab[Blk(V(s1, f).size)] < |s1.disk| && f in s1.mem
    ensures var v := V(s1, f);
            Appended(s, Rewritten(s1, f, v.ab[Blk(v.size)], Patched(base, Off(v.size), chunk), v.size + |chunk|), f,
                     bytes + chunk)
  {
    hide V, Owned, Content, Patched, Leaked;
    var v := V(s1, f);
    var sector := Patched(base, Off(v.size), chunk);
    Rewrite(s1, f, Blk(v.size), sector, v.size + |chunk|);
    ChunkAppends(v, base, chunk);
    assert Content(V(s, f)) + bytes + chunk == Content(V(s, f)) + (bytes + chunk);
  }

  /** A successful file_write, up to the final sync: the buffer appended to file f, and nothing
      else different. */
  ghost predicate FileGrew(s: Fs, s': Fs, f: nat, bytes: seq<byte>) {
    && SameRest(s, s') && OnlyNode(s.mem, s'.mem, f) && Owned(s') && OthersSame(s, s', f) && Leaked(s') == Leaked(s)
    && FileShape(V(s', f)) && V(s', f).ab[0] != 0
    && V(s, f).size <= MAX_SIZE && Content(V(s', f)) == Content(V(s, f)) + bytes
  }

  lemma GrewFromParts(s: Fs, s1: Fs, s': Fs, f: nat, from: nat, to: nat, bytes: seq<byte>)
    requires f in s.nodes && FileReady(s, s1, f, from, to) && Appended(s1, s', f, bytes) && from <= to
    requires V(s, f).size <= 512 * from
    requires V(s, f).size + |bytes| < MAX_SIZE && to == Blk(V(s, f).size + |bytes|) + 1
    ensures FileGrew(s, s', f, bytes)
  {
    hide V, Owned, Content, Leaked;
    ContentDepends(V(s, f), V(s1, f));
  }

  lemma ReadyTwice(s: Fs, s1: Fs, s2: Fs, f: nat, a: nat, b: nat, c: nat)
    requires FileReady(s, s1, f, a, b) && FileReady(s1, s2, f, b, c) && a <= b
    ensures FileReady(s, s2, f, a, c)
  {
    hide V, Owned, Leaked, Blocks;
  }

  lemma ReadyAlready(s: Fs, f: nat, n: nat)
    requires Owned(s) && f in s.mem && Blocks(V(s, f), n)
    ensures FileReady(s, s, f, n, n)
  {
    hide V, Owned, Leaked;
  }

  /** The blocks a write of n bytes has to find. */
  function TotalNeed(v: View, n: nat): nat {
    (if v.ab[0] == 0 then 1 else 0) + Need(Blk(v.size) + 1, Blk(v.size + n) + 1)
  }

  lemma ReadyFacts(s: Fs, s': Fs, f: nat, a: nat, b: nat)
    requires FileReady(s, s', f, a, b)
    ensures Owned(s') && f in s'.mem && s'.nodes == s.nodes && Blocks(V(s', f), b) && V(s', f).size == V(s, f).size
    ensures SameRest(s, s') && OnlyNode(s.mem, s'.mem, f)
  {}

  lemma ShapeBlocks(v: View)
    requires FileShape(v)
    ensures v.size < MAX_SIZE
    ensures v.ab[0] == 0 ==> v.size == 0 && Blocks(v, 0)
    ensures v.ab[0] != 0 ==> Blocks(v, Blk(v.size) + 1)
  {}

  lemma AppendedFacts(s: Fs, s': Fs, f: nat, bytes: seq<byte>)
    requires Appended(s, s', f, bytes)
    ensures Owned(s') && f in s'.mem && V(s', f).size == V(s, f).size + |bytes| && V(s', f).ab == V(s, f).ab
    ensures SameRest(s, s') && OnlyNode(s.mem, s'.mem, f)
  {}

  lemma AppendStart(s: Fs, f: nat)
    requires Owned(s) && f in s.nodes && f in s.mem && V(s, f).size <= MAX_SIZE
    ensures Appended(s, s, f, [])
  {
    hide V, Owned, Leaked, Content;
    assert Content(V(s, f)) + [] == Content(V(s, f));
  }

  lemma SameFree(s: Fs, s': Fs)
    requires s'.ds == s.ds && |s'.disk| == |s.disk| && s'.bb == s.bb
    ensures FreeBlocks(s') == FreeBlocks(s)
  {
    assert forall x :: Bit(s', x) == Bit(s, x);
  }

  lemma WriteIsRewrite(s: Fs, s': Fs, f: nat, b: nat, sector: Sector, size: nat)
    requires f in s.mem && b < |s.disk|
    requires s' == s.(disk := s.disk[b := sector], mem := s.mem[f := s.mem[f].(node := s.mem[f].node.(size := size))])
    ensures s' == Rewritten(s, f, b, sector, size)
  {}

  /** A chunk written at the end of file f. */
  lemma ChunkWritten(s: Fs, s1: Fs, s2: Fs, f: nat, lba: nat, bytes: seq<byte>, base: Sector, chunk: seq<byte>)
    requires f in s.nodes && f in s1.mem && lba < |s1.disk| && Appended(s, s1, f, bytes)
    requires V(s1, f).size + |chunk| <= MAX_SIZE && V(s1, f).size < MAX_SIZE && Off(V(s1, f).size) + |chunk| <= 512
    requires lba == V(s1, f).ab[Blk(V(s1, f).size)] != 0
    requires base[..Off(V(s1, f).size)] == V(s1, f).body[Blk(V(s1, f).size)][..Off(V(s1, f).size)]
    requires s2 == s1.(disk := s1.disk[lba := Patched(base, Off(V(s1, f).size), chunk)],
                       mem := s1.mem[f := s1.mem[f].(node := s1.mem[f].node.(size := V(s1, f).size + |chunk|))])
    ensures Appended(s, s2, f, bytes + chunk)
  {
    hide V, Owned, Appended, Patched, PutNode, Rewritten, Blk, Off;
    AppendStep(s, s1, f, bytes, base, chunk);
    WriteIsRewrite(s1, s2, f, lba, Patched(base, Off(V(s1, f).size), chunk), V(s1, f).size + |chunk|);
  }

  /** The block of the next chunk is on the disk. */
  lemma ChunkOnDisk(s: Fs, s1: Fs, f: nat, bytes: seq<byte>, k: nat)
    requires f in s.nodes && Appended(s, s1, f, bytes) && k < 140 && V(s1, f).ab[k] != 0
    ensures V(s1, f).ab[k] < |s1.disk|
  {
    hide V, Owned;
    OwnerOf(s1, f, k);
  }

  /** File f has the blocks that a write of n bytes needs. */
  ghost predicate Prepared(s: Fs, s': Fs, f: nat, n: nat) {
    var from := if V(s, f).ab[0] == 0 then 0 else Blk(V(s, f).size) + 1;
    FileReady(s, s', f, from, Blk(V(s, f).size + n) + 1)
  }

  lemma PreparedTwice(s: Fs, s1: Fs, s2: Fs, f: nat, n: nat, has: nat, will: nat)
    requires FileShape(V(s, f)) && has == Blk(V(s, f).size) + 1 && will == Blk(V(s, f).size + n) + 1
    requires if V(s, f).ab[0] == 0 then FileReady(s, s1, f, 0, 1) else FileReady(s, s1, f, has, has)
    requires FileReady(s1, s2, f, has, will)
    ensures Prepared(s, s2, f, n)
  {
    hide V, FileReady, Blocks;
    ShapeBlocks(V(s, f));
    if V(s, f).ab[0] == 0 {
      ReadyTwice(s, s1, s2, f, 0, 1, will);
    } else {
      ReadyTwice(s, s1, s2, f, has, has, will);
    }
  }

  lemma PreparedFacts(s: Fs, s1: Fs, f: nat, n: nat)
    requires Prepared(s, s1, f, n)
    ensures Owned(s1) && f in s1.mem && s1.nodes == s.nodes && V(s1, f).size == V(s, f).size
    ensures SameRest(s, s1) && OnlyNode(s.mem, s1.mem, f) && Blocks(V(s1, f), Blk(V(s, f).size + n) + 1)
  {
    hide V, Owned;
  }

  /** i_size - 1 as a uint32_t. */
  function PosAfter(size: nat): nat {
    if size == 0 then WORD - 1 else size - 1
  }

  /** fd_pos += chunk_size, in 32 bits. */
  function Advance(pos: nat, n: nat): nat {
    (pos + n) % WORD
  }

  lemma AdvancePos(size: nat, n: nat)
    requires size + n <= MAX_SIZE && n > 0
    ensures Advance(PosAfter(size), n) == PosAfter(size + n)
  {}

  /** The block that a chunk goes to is in the list, and there. */
  lemma ChunkBlock(loc: seq<nat>, v: View, size0: nat, w: nat, n: nat)
    requires Covers(loc, v, Blk(size0) + 1, Blk(size0 + n) + 1) && Blocks(v, Blk(size0 + n) + 1)
    requires w < n && size0 + n < MAX_SIZE
    ensures Blk(size0 + w) < 140 && |loc| == 140 && loc[Blk(size0 + w)] == v.ab[Blk(size0 + w)] != 0
  {}

  /** The whole of file_write: the file grew by the buffer, its inode is on disk, and the file
      position is that of the last byte. */
  ghost predicate Wrote(s: Fs, s': Fs, fd: nat, bytes: seq<byte>) {
    && fd < |s.files| && s.files[fd].Open?
    && var f := s.files[fd].ino;
    && FileGrew(s, s'.(itab := s.itab, files := s.files), f, bytes)
    && f in s'.mem && f < |s.itab| && s'.itab == s.itab[f := s'.mem[f].node]
    && s'.files == s.files[fd := s.files[fd].(pos := PosAfter(V(s, f).size + |bytes|))]
  }

  lemma WrittenFacts(s: Fs, s1: Fs, s2: Fs, f: nat, bytes: seq<byte>)
    requires Prepared(s, s1, f, |bytes|) && Appended(s1, s2, f, bytes)
    ensures f in s.mem && f in s2.mem && s2.mem[f].node.no == s.mem[f].node.no && s2.itab == s.itab
    ensures s2.files == s.files
  {
    hide V, Owned;
  }

  lemma WroteFromParts(s: Fs, s1: Fs, s2: Fs, s': Fs, fd: nat, f: nat, bytes: seq<byte>)
    requires fd < |s.files| && s.files[fd].Open? && s.files[fd].ino == f && f in s.nodes && f < |s.itab| && f in s2.mem
    requires FileShape(V(s, f)) && V(s, f).size + |bytes| < MAX_SIZE
    requires Prepared(s, s1, f, |bytes|) && Appended(s1, s2, f, bytes)
    requires s' == s2.(itab := s.itab[f := s2.mem[f].node],
                       files := s.files[fd := s.files[fd].(pos := PosAfter(V(s, f).size + |bytes|))])
    ensures Wrote(s, s', fd, bytes)
  {
    hide V, Owned, FileReady, Appended, Blocks, FileGrew;
    ShapeBlocks(V(s, f));
    var from := if V(s, f).ab[0] == 0 then 0 else Blk(V(s, f).size) + 1;
    GrewFromParts(s, s1, s2, f, from, Blk(V(s, f).size + |bytes|) + 1, bytes);
    GrewSame(s, s2, f, bytes);
    assert s'.(itab := s.itab, files := s.files) == s2.(itab := s.itab, files := s.files);
    assert s2.(itab := s.itab, files := s.files) == s2;
  }

  lemma GrewSame(s: Fs, s': Fs, f: nat, bytes: seq<byte>)
    requires FileGrew(s, s', f, bytes)
    ensures s'.itab == s.itab && s'.files == s.files
  {
    hide V, Owned, Content, Leaked;
  }

  /** The writing loop after `written` bytes. */
  ghost predicate Writing(s: Fs, s1: Fs, f: nat, buf: seq<byte>, loc: seq<nat>, written: nat, first: bool) {
    && f in s.nodes && written <= |buf| && V(s, f).size + |buf| < MAX_SIZE
    && Blocks(V(s, f), Blk(V(s, f).size + |buf|) + 1)
    && Covers(loc, V(s, f), Blk(V(s, f).size) + 1, Blk(V(s, f).size + |buf|) + 1)
    && Appended(s, s1, f, buf[..written])
    && (!first ==> written == |buf| || Off(V(s, f).size + written) == 0)
  }

  lemma WritingStart(s: Fs, f: nat, buf: seq<byte>, loc: seq<nat>)
    requires Owned(s) && f in s.nodes && f in s.mem && V(s, f).size + |buf| < MAX_SIZE
    requires Blocks(V(s, f), Blk(V(s, f).size + |buf|) + 1)
    requires Covers(loc, V(s, f), Blk(V(s, f).size) + 1, Blk(V(s, f).size + |buf|) + 1)
    ensures Writing(s, s, f, buf, loc, 0, true)
  {
    hide V, Owned, Blocks, Covers, Appended;
    AppendStart(s, f);
    assert buf[..0] == [];
  }

  /** What the next chunk may rely on. */
  lemma WritingNext(s: Fs, s1: Fs, f: nat, buf: seq<byte>, loc: seq<nat>, written: nat, first: bool)
    requires Writing(s, s1, f, buf, loc, written, first) && written < |buf|
    ensures f in s.nodes && f in s1.mem && V(s1, f).size == s1.mem[f].node.size == V(s, f).size + written
    ensures V(s1, f).size + (|buf| - written) < MAX_SIZE && Blk(V(s1, f).size) < 140
    ensures |loc| == 140 && loc[Blk(V(s1, f).size)] == V(s1, f).ab[Blk(V(s1, f).size)] != 0
    ensures Appended(s, s1, f, buf[..written]) && (first || Off(V(s1, f).size) == 0)
  {
    hide V, Owned, Blocks, Covers, Appended, Blk, Off;
    AppendedFacts(s, s1, f, buf[..written]);
    HeadOfView(s1, f);
    ChunkBlock(loc, V(s, f), V(s, f).size, written, |buf|);
  }

  lemma WritingStep(s: Fs, s1: Fs, s2: Fs, f: nat, buf: seq<byte>, loc: seq<nat>, written: nat, first: bool)
    requires Writing(s, s1, f, buf, loc, written, first) && written < |buf|
    requires var n := ChunkLen(V(s, f).size + written, |buf| - written);
             n <= |buf| - written && Appended(s, s2, f, buf[..written] + buf[written..written + n])
    ensures var n := ChunkLen(V(s, f).size + written, |buf| - written);
            n > 0 && Writing(s, s2, f, buf, loc, written + n, false)
  {
    hide V, Owned, Blocks, Covers, Appended, ChunkLen, Off;
    var n := ChunkLen(V(s, f).size + written, |buf| - written);
    ChunkFits(V(s, f).size + written, |buf| - written);
    assert buf[..written] + buf[written..written + n] == buf[..written + n];
  }

  lemma WritingDone(s: Fs, s1: Fs, f: nat, buf: seq<byte>, loc: seq<nat>, first: bool)
    requires Writing(s, s1, f, buf, loc, |buf|, first)
    ensures Appended(s, s1, f, buf)
  {
    hide V, Appended;
    assert buf[..|buf|] == buf;
  }

  // ---- file_read ----

  /** What one chunk of file_read copies. */
  lemma ChunkRead(v: View, p: nat, n: nat)
    requires v.size <= MAX_SIZE && p + n <= v.size && Off(p) + n <= 512 && n > 0
    ensures Blk(p) < 140 && v.body[Blk(p)][Off(p)..Off(p) + n] == Content(v)[p..p + n]
  {
    hide Content;
    var read := v.body[Blk(p)][Off(p)..Off(p) + n];
    forall i {:trigger read[i]} | 0 <= i < n
      ensures read[i] == Content(v)[p..p + n][i]
    {
      ContentAt(v, p + i);
      assert Blk(p + i) == Blk(p) && Off(p + i) == Off(p) + i;
    }
  }

  /** The local list has the blocks from `start` to `end`. */
  ghost predicate Loaded(loc: seq<nat>, v: View, start: nat, end: nat) {
    |loc| == 140 && end < 140 && forall k :: start <= k <= end ==> loc[k] == v.ab[k]
  }

  lemma LoadedFromParts(loc: seq<nat>, v: View, sec: seq<nat>, table: seq<nat>, start: nat, end: nat)
    requires |sec| == 13 && |loc| == 140 && start <= end < 139 && sec[..12] == v.ab[..12]
    requires end >= 12 ==> table == v.ab[12..]
    requires forall k :: start <= k <= end ==> loc[k] == if k < 12 then sec[k] else table[k - 12]
    ensures Loaded(loc, v, start, end)
  {
    forall k | start <= k <= end
      ensures loc[k] == v.ab[k]
    {
      if k < 12 {
        assert sec[..12][k] == v.ab[..12][k];
      }
    }
  }

  /** A byte before the size lies in a present block, and in a loaded one. */
  lemma ReadBlock(loc: seq<nat>, v: View, start: nat, p: nat, top: nat)
    requires FileShape(v) && start <= p < top <= v.size && Loaded(loc, v, Blk(start), Blk(top))
    ensures Blk(p) < 140 && |loc| == 140 && loc[Blk(p)] == v.ab[Blk(p)] != 0
  {}

  /** The table is there whenever a read reaches the indirect blocks. */
  lemma ReadTable(v: View, top: nat)
    requires FileShape(v) && top <= v.size && Blk(top) >= 12
    ensures v.tab != 0
  {}

  lemma ReadTop(pos: nat, count: nat, n: nat, size: nat)
    requires Blk(pos + count) < 139 || Blk(size) < 139
    requires pos + n <= size && n <= count
    ensures Blk(pos) <= Blk(pos + n) < 139
  {}
}
