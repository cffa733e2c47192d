/** What the block-moving operations do to ownership: each lemma takes the state before and
    after one kind of move and gives the new view of the inode that moved, the unchanged views
    of every other inode, and ownership again. */
module Moves {
  import opened Codec
  import opened Store

  /** Everything the moves leave alone. */
  predicate SameRest(s: Fs, s': Fs) {
    && s'.ds == s.ds && s'.ib == s.ib && s'.itab == s.itab && s'.files == s.files
    && s'.nodes == s.nodes && s'.dirs == s.dirs && s'.par == s.par
    && |s'.disk| == |s.disk| && |s'.bb| == |s.bb|
  }

  ghost predicate OthersSame(s: Fs, s': Fs, d: nat) {
    forall i :: i in s.nodes && i != d ==> V(s', i) == V(s, i)
  }

  /** Blocks that are marked but unowned keep their sectors. */
  predicate LostKept(s: Fs, s': Fs) {
    forall b :: s.ds <= b < |s.disk| && Bit(s, b) && b !in s.own ==> At(s'.disk, b) == At(s.disk, b)
  }

  // ---- ownership, on views alone ----

  /** View v of inode d becomes v', and `own` becomes own', touching only d's references. */
  ghost predicate Reowned(d: nat, v': View, own: map<nat, (nat, nat)>, own': map<nat, (nat, nat)>) {
    && (forall b :: b in own && own[b].0 != d ==> b in own' && own'[b] == own[b])
    && (forall b :: b in own' && own'[b].0 != d ==> b in own && own[b] == own'[b])
    && (forall b :: b in own' && own'[b].0 == d ==> own'[b].1 <= 140 && Ref(v', own'[b].1) == b)
    && (forall k :: 0 <= k <= 140 && Ref(v', k) != 0 ==> Ref(v', k) in own' && own'[Ref(v', k)] == (d, k))
    && 0 !in own'
  }

  lemma Reown(vs: map<nat, View>, d: nat, v': View, own: map<nat, (nat, nat)>, own': map<nat, (nat, nat)>)
    requires OwnedBy(vs, own) && d in vs && Reowned(d, v', own, own')
    ensures OwnedBy(vs[d := v'], own')
  {
    var vs' := vs[d := v'];
    forall i, k {:trigger Ref(vs'[i], k)} | i in vs' && 0 <= k <= 140 && Ref(vs'[i], k) != 0
      ensures Ref(vs'[i], k) in own' && own'[Ref(vs'[i], k)] == (i, k)
    {
      if i != d {
        assert Ref(vs[i], k) in own;
      }
    }
    forall b | b in own'
      ensures own'[b].0 in vs' && own'[b].1 <= 140 && Ref(vs'[own'[b].0], own'[b].1) == b
    {
      if own'[b].0 != d {
        assert b in own;
      }
    }
  }

  /** `added` names the reference of d that each new block serves. */
  ghost predicate AddsRefs(d: nat, v: View, v': View, added: map<nat, (nat, nat)>) {
    && 0 !in added
    && (forall b :: b in added ==> added[b].0 == d && added[b].1 <= 140 && Ref(v', added[b].1) == b)
    && (forall k :: 0 <= k < 140 ==>
          v'.ab[k] == v.ab[k] || (v.ab[k] == 0 && v'.ab[k] in added && added[v'.ab[k]] == (d, k)))
    && (v'.tab == v.tab || (v'.tab in added && added[v'.tab] == (d, 140)))
  }

  /** The old table block, when a new one takes its place. */
  function Replaced(was: nat, now: nat): set<nat> {
    if now == was || was == 0 then {} else {was}
  }

  lemma AddOwn(vs: map<nat, View>, d: nat, v': View, own: map<nat, (nat, nat)>, added: map<nat, (nat, nat)>)
    requires OwnedBy(vs, own) && d in vs && AddsRefs(d, vs[d], v', added) && added.Keys !! own.Keys
    ensures OwnedBy(vs[d := v'], (own - Replaced(vs[d].tab, v'.tab)) + added)
  {
    var v := vs[d];
    var own' := (own - Replaced(v.tab, v'.tab)) + added;
    if v.tab != 0 {
      assert own[Ref(v, 140)] == (d, 140);
    }
    forall b | b in own' && own'[b].0 == d
      ensures own'[b].1 <= 140 && Ref(v', own'[b].1) == b
    {
      if b !in added {
        assert Ref(v, own[b].1) == b;
      }
    }
    forall k | 0 <= k <= 140 && Ref(v', k) != 0
      ensures Ref(v', k) in own' && own'[Ref(v', k)] == (d, k)
    {
      if Ref(v', k) == Ref(v, k) {
        assert own[Ref(v, k)] == (d, k);
      }
    }
    Reown(vs, d, v', own, own');
  }

  /** The references of d that lie in `gone` become 0, and the others stay. */
  ghost predicate DropsRefs(v: View, v': View, gone: set<nat>) {
    forall k :: 0 <= k <= 140 ==> Ref(v', k) == if Ref(v, k) in gone then 0 else Ref(v, k)
  }

  lemma DropOwn(vs: map<nat, View>, d: nat, v': View, own: map<nat, (nat, nat)>, gone: set<nat>)
    requires OwnedBy(vs, own) && d in vs && DropsRefs(vs[d], v', gone)
    requires forall b :: b in gone && b in own ==> own[b].0 == d
    ensures OwnedBy(vs[d := v'], own - gone)
  {
    var v, own' := vs[d], own - gone;
    forall b | b in own' && own'[b].0 == d
      ensures own'[b].1 <= 140 && Ref(v', own'[b].1) == b
    {
      assert Ref(v, own[b].1) == b;
    }
    forall k | 0 <= k <= 140 && Ref(v', k) != 0
      ensures Ref(v', k) in own' && own'[Ref(v', k)] == (d, k)
    {
      assert own[Ref(v, k)] == (d, k);
    }
    Reown(vs, d, v', own, own');
  }

  lemma SameRefs(vs: map<nat, View>, d: nat, v': View, own: map<nat, (nat, nat)>)
    requires OwnedBy(vs, own) && d in vs && v'.ab == vs[d].ab && v'.tab == vs[d].tab
    ensures OwnedBy(vs[d := v'], own)
  {
    var v := vs[d];
    forall k | 0 <= k <= 140
      ensures Ref(v', k) == Ref(v, k)
      ensures Ref(v', k) != 0 ==> Ref(v', k) in own && own[Ref(v', k)] == (d, k)
    {}
    Reown(vs, d, v', own, own);
  }

  // ---- the same moves on the state ----

  /** The bitmap after marking `added` and dropping the owners of `gone` without unmarking them. */
  lemma BitsAfterGrow(s: Fs, s': Fs, added: map<nat, (nat, nat)>, gone: set<nat>)
    requires Geometry(s) && Marked(s) && SameRest(s, s')
    requires s'.own == (s.own - gone) + added
    requires forall b :: b in added ==> FreeBlock(s, b)
    requires forall b :: s.ds <= b < s.ds + |s.bb| ==> Bit(s', b) == (Bit(s, b) || b in added)
    ensures added.Keys !! s.own.Keys && Geometry(s') && Marked(s')
    ensures Leaked(s') == Leaked(s) + (gone * s.own.Keys)
  {
  }

  lemma BitsAfterShrink(s: Fs, s': Fs, gone: set<nat>)
    requires Geometry(s) && Marked(s) && SameRest(s, s')
    requires s'.own == s.own - gone && gone <= s.own.Keys
    requires forall b :: s.ds <= b < s.ds + |s.bb| ==> Bit(s', b) == (Bit(s, b) && b !in gone)
    ensures Geometry(s') && Marked(s') && Leaked(s') == Leaked(s)
  {
  }

  lemma BitsSame(s: Fs, s': Fs)
    requires Geometry(s) && Marked(s) && s'.bb == s.bb && s'.ds == s.ds && |s'.disk| == |s.disk| && s'.own == s.own
    ensures Geometry(s') && Marked(s') && Leaked(s') == Leaked(s)
  {
    assert forall b :: Bit(s', b) == Bit(s, b);
  }

  /** Only inode d, sectors nobody else owns, the bitmap and the bookkeeping change. */
  ghost predicate Local(s: Fs, s': Fs, d: nat) {
    && SameRest(s, s') && d in s.mem && d in s'.mem && s'.mem == s.mem[d := s'.mem[d]]
    && (forall b :: b in s.own && s.own[b].0 != d ==> At(s'.disk, b) == At(s.disk, b))
  }

  lemma LocalViews(s: Fs, s': Fs, d: nat)
    requires Owned(s) && d in s.nodes && Local(s, s', d)
    ensures OthersSame(s, s', d) && Views(s') == Views(s)[d := V(s', d)]
  {
    forall i | i in s.nodes && i != d
      ensures V(s', i) == V(s, i)
    {
      ViewFrame(s, s', i);
    }
  }

  /** Rewriting one owned data sector of d, and its size. */
  function Rewritten(s: Fs, d: nat, b: nat, sector: Sector, size: nat): Fs
    requires d in s.mem && b < |s.disk|
  {
    PutNode(s.(disk := s.disk[b := sector]), d, s.mem[d].node.(size := size))
  }

  lemma RewriteView(s: Fs, d: nat, k: nat, sector: Sector, size: nat)
    requires Owned(s) && d in s.nodes && d in s.mem && k < 140 && V(s, d).ab[k] != 0
    ensures V(s, d).ab[k] in s.own && s.own[V(s, d).ab[k]] == (d, k) && s.ds <= V(s, d).ab[k] < |s.disk|
    ensures V(Rewritten(s, d, V(s, d).ab[k], sector, size), d)
         == V(s, d).(size := size, body := V(s, d).body[k := sector])
  {
    var v := V(s, d);
    OwnerOf(s, d, k);
    OwnerOf(s, d, 140);
    var s' := Rewritten(s, d, v.ab[k], sector, size);
    var v' := V(s', d);
    assert v'.ab == v.ab;
    forall l | 0 <= l < 140
      ensures v'.body[l] == v.body[k := sector][l]
    {
      OwnerOf(s, d, l);
    }
  }

  lemma Rewrite(s: Fs, d: nat, k: nat, sector: Sector, size: nat)
    requires Owned(s) && d in s.nodes && d in s.mem && k < 140 && V(s, d).ab[k] != 0
    ensures V(s, d).ab[k] < |s.disk|
    ensures var s' := Rewritten(s, d, V(s, d).ab[k], sector, size);
            && Owned(s') && OthersSame(s, s', d) && Leaked(s') == Leaked(s)
            && V(s', d) == V(s, d).(size := size, body := V(s, d).body[k := sector])
  {
    hide ViewOf, SectorsOf;
    RewriteView(s, d, k, sector, size);
    var s' := Rewritten(s, d, V(s, d).ab[k], sector, size);
    LocalViews(s, s', d);
    BitsSame(s, s');
    SameRefs(Views(s), d, V(s', d), s.own);
  }

  /** The bitmap, the owners and the sectors after inode d got the blocks in `added`. */
  ghost predicate GrowsStore(s: Fs, s': Fs, added: map<nat, (nat, nat)>, was: nat, tab: nat) {
    && s'.own == (s.own - Replaced(was, tab)) + added
    && (forall b :: b in added ==> FreeBlock(s, b))
    && (forall b :: s.ds <= b < s.ds + |s.bb| ==> Bit(s', b) == (Bit(s, b) || b in added))
    && (forall b :: 0 <= b < |s.disk| && b != tab && b !in added ==> At(s'.disk, b) == At(s.disk, b))
  }

  /** Inode d's record and table sector spell the block list `ab` and the pointer `tab`. */
  ghost predicate Spells(s: Fs, d: nat, ab: seq<nat>, tab: nat) {
    && d in s.mem && |ab| == 140 && s.mem[d].node.sec[..12] == ab[..12] && s.mem[d].node.sec[12] == tab
    && ab[12..] == (if tab == 0 then seq(128, _ => 0) else Table(At(s.disk, tab)))
  }

  /** New blocks for inode d, whose list becomes `ab` and table pointer `tab`. */
  ghost predicate Grows(s: Fs, s': Fs, d: nat, added: map<nat, (nat, nat)>, ab: seq<nat>, tab: nat) {
    && SameRest(s, s') && OnlyNode(s.mem, s'.mem, d) && Spells(s', d, ab, tab)
    && GrowsStore(s, s', added, V(s, d).tab, tab)
    && AddsRefs(d, V(s, d), ViewRec(s'.mem[d].node.size, tab, ab, SectorsOf(s'.disk, ab)), added)
  }

  lemma ViewFromParts(s: Fs, d: nat, ab: seq<nat>, tab: nat)
    requires Spells(s, d, ab, tab)
    ensures V(s, d) == ViewRec(s.mem[d].node.size, tab, ab, SectorsOf(s.disk, ab))
  {
    assert ab == ab[..12] + ab[12..];
    assert BlocksOf(s.disk, s.mem[d].node) == ab;
  }

  lemma PartsOfView(s: Fs, d: nat)
    requires d in s.mem
    ensures Spells(s, d, V(s, d).ab, V(s, d).tab) && V(s, d).size == s.mem[d].node.size
    ensures V(s, d).body == SectorsOf(s.disk, V(s, d).ab)
  {}

  lemma HeadOfView(s: Fs, d: nat)
    requires d in s.mem
    ensures V(s, d).size == s.mem[d].node.size && V(s, d).tab == s.mem[d].node.sec[12]
  {
    hide SectorsOf, BlocksOf;
  }

  lemma DirectOfView(s: Fs, d: nat)
    requires d in s.mem
    ensures s.mem[d].node.sec[..12] == V(s, d).ab[..12]
  {
    hide V, Table;
    PartsOfView(s, d);
  }

  lemma GrowLocal(s: Fs, s': Fs, d: nat, added: map<nat, (nat, nat)>, ab: seq<nat>, tab: nat)
    requires Owned(s) && d in s.nodes && Grows(s, s', d, added, ab, tab)
    ensures Local(s, s', d)
  {
    hide V, Marked, OwnedBy;
    OwnerOf(s, d, 140);
    forall b | b in s.own && s.own[b].0 != d
      ensures At(s'.disk, b) == At(s.disk, b)
    {
      OwnedIsMarked(s, b);
      assert b != tab && b !in added;
    }
  }

  lemma OwnedIsMarked(s: Fs, b: nat)
    requires Owned(s) && b in s.own
    ensures s.ds <= b < |s.disk| && Bit(s, b) && s.own[b].0 in s.nodes
  {}

  lemma Grow(s: Fs, s': Fs, d: nat, added: map<nat, (nat, nat)>, ab: seq<nat>, tab: nat)
    requires Owned(s) && d in s.nodes && Grows(s, s', d, added, ab, tab)
    ensures Owned(s') && OthersSame(s, s', d) && SameRest(s, s') && OnlyNode(s.mem, s'.mem, d)
    ensures V(s', d) == ViewRec(s'.mem[d].node.size, tab, ab, SectorsOf(s'.disk, ab))
    ensures Leaked(s') == Leaked(s) + Replaced(V(s, d).tab, tab)
  {
    hide V, OwnedBy, Marked, AddsRefs, Spells;
    GrowLocal(s, s', d, added, ab, tab);
    BitsAfterGrow(s, s', added, Replaced(V(s, d).tab, tab));
    OwnerOf(s, d, 140);
    ViewFromParts(s', d, ab, tab);
    LocalViews(s, s', d);
    AddOwn(Views(s), d, V(s', d), s.own, added);
  }

  /** Inode d gives back the blocks in `gone`: they are unmarked and unreferenced. */
  ghost predicate Shrinks(s: Fs, s': Fs, d: nat, gone: set<nat>, ab: seq<nat>, tab: nat) {
    && SameRest(s, s') && OnlyNode(s.mem, s'.mem, d) && Spells(s', d, ab, tab)
    && ShrinksStore(s, s', d, gone, tab)
    && DropsRefs(V(s, d), ViewRec(s'.mem[d].node.size, tab, ab, SectorsOf(s'.disk, ab)), gone)
  }

  ghost predicate ShrinksStore(s: Fs, s': Fs, d: nat, gone: set<nat>, tab: nat) {
    && s'.own == s.own - gone
    && (forall b :: b in gone ==> b in s.own && s.own[b].0 == d)
    && (forall b :: s.ds <= b < s.ds + |s.bb| ==> Bit(s', b) == (Bit(s, b) && b !in gone))
    && (forall b :: 0 <= b < |s.disk| && b != tab ==> At(s'.disk, b) == At(s.disk, b))
  }

  lemma ShrinkLocal(s: Fs, s': Fs, d: nat, gone: set<nat>, ab: seq<nat>, tab: nat)
    requires Owned(s) && d in s.nodes && Shrinks(s, s', d, gone, ab, tab)
    ensures Local(s, s', d)
  {
    hide V, Marked, OwnedBy;
    OwnerOf(s, d, 140);
    var v' := ViewRec(s'.mem[d].node.size, tab, ab, SectorsOf(s'.disk, ab));
    assert Ref(v', 140) == tab && Ref(V(s, d), 140) == V(s, d).tab;
    forall b | b in s.own && s.own[b].0 != d
      ensures At(s'.disk, b) == At(s.disk, b)
    {
      OwnedIsMarked(s, b);
    }
  }

  lemma Shrink(s: Fs, s': Fs, d: nat, gone: set<nat>, ab: seq<nat>, tab: nat)
    requires Owned(s) && d in s.nodes && Shrinks(s, s', d, gone, ab, tab)
    ensures Owned(s') && OthersSame(s, s', d) && SameRest(s, s') && OnlyNode(s.mem, s'.mem, d)
    ensures Leaked(s') == Leaked(s)
    ensures V(s', d) == ViewRec(s'.mem[d].node.size, tab, ab, SectorsOf(s'.disk, ab))
  {
    hide V, OwnedBy, Marked, DropsRefs, Spells;
    ShrinkLocal(s, s', d, gone, ab, tab);
    BitsAfterShrink(s, s', gone);
    ViewFromParts(s', d, ab, tab);
    LocalViews(s, s', d);
    DropOwn(Views(s), d, V(s', d), s.own, gone);
  }

  /** An old block of a growing inode that is neither new nor the table keeps its sector. */
  lemma GrowKeepsSector(s: Fs, s': Fs, d: nat, added: map<nat, (nat, nat)>, ab: seq<nat>, tab: nat, l: nat)
    requires Owned(s) && d in s.nodes && d in s.mem && Grows(s, s', d, added, ab, tab)
    requires l < 140 && V(s, d).ab[l] != 0
    ensures ab[l] == V(s, d).ab[l] && SectorsOf(s'.disk, ab)[l] == V(s, d).body[l]
  {
    hide V, OwnedBy, Marked;
    PartsOfView(s, d);
    OwnerOf(s, d, l);
    OwnerOf(s, d, 140);
    OwnedIsMarked(s, Ref(V(s, d), l));
    assert Ref(V(s, d), l) == V(s, d).ab[l];
    assert At(s'.disk, ab[l]) == At(s.disk, ab[l]);
  }

  lemma GrowKeepsLost(s: Fs, s': Fs, d: nat, added: map<nat, (nat, nat)>, ab: seq<nat>, tab: nat)
    requires Owned(s) && d in s.nodes && Grows(s, s', d, added, ab, tab)
    ensures LostKept(s, s')
  {
    hide V, OwnedBy, Marked, Spells;
    OwnerOf(s, d, 140);
  }
}
