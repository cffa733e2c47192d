/** A directory's 140 blocks read as 2940 entry slots, and the shape every directory keeps. */
module Directory {
  import opened Codec
  import opened Store
  import opened Counting

  const DOT: seq<byte> := [46]
  const DOTDOT: seq<byte> := [46, 46]

  /** Slot c is entry c % 21 of block c / 21; a block that is not there holds dead entries. */
  function Slot(v: View, c: nat): DirEntry
    requires c < 2940
  {
    if v.ab[c / 21] == 0 then DEAD else Entries(v.body[c / 21])[c % 21]
  }

  function Slots(v: View): (t: seq<DirEntry>)
    ensures |t| == 2940
  {
    seq(2940, c requires 0 <= c < 2940 => Slot(v, c))
  }

  predicate Live(e: DirEntry) {
    e.ftype != 0
  }

  /** Some entry of block k is live. */
  predicate HasLive(t: seq<DirEntry>, k: nat)
    requires |t| == 2940 && k < 140
  {
    exists c :: 21 * k <= c < 21 * k + 21 && Live(t[c])
  }

  function CountLive(t: seq<DirEntry>): nat {
    if t == [] then 0
    else CountLive(t[..|t| - 1]) + if Live(t[|t| - 1]) then 1 else 0
  }

  lemma {:induction false} CountUpdate(t: seq<DirEntry>, c: nat, e: DirEntry)
    requires c < |t|
    ensures CountLive(t[c := e]) + (if Live(t[c]) then 1 else 0) == CountLive(t) + (if Live(e) then 1 else 0)
  {
    var n := |t| - 1;
    if c == n {
      assert t[c := e][..n] == t[..n];
    } else {
      assert t[c := e][..n] == t[..n][c := e];
      CountUpdate(t[..n], c, e);
    }
  }

  lemma {:induction false} CountPrefix(t: seq<DirEntry>, m: nat)
    requires m <= |t| && forall c :: 0 <= c < m ==> Live(t[c])
    ensures CountLive(t) >= m
  {
    if |t| > 0 {
      CountPrefix(t[..|t| - 1], if m == |t| then m - 1 else m);
    }
  }

  /** The entries other than "." and ".." have distinct inode numbers below 256, so there are
      at most 256 of them. */
  lemma {:induction false} CountBound(t: seq<DirEntry>, inos: set<nat>)
    requires forall c :: 2 <= c < |t| && Live(t[c]) ==> t[c].ino in inos
    requires forall a, b :: 2 <= a < b < |t| && Live(t[a]) && Live(t[b]) ==> t[a].ino != t[b].ino
    ensures CountLive(t) <= 2 + |inos|
  {
    if |t| <= 2 {
      if |t| == 2 {
        assert CountLive(t[..1]) <= 1 by { assert t[..1][..0] == []; }
      }
    } else {
      var n := |t| - 1;
      if Live(t[n]) {
        CountBound(t[..n], inos - {t[n].ino});
      } else {
        CountBound(t[..n], inos);
      }
    }
  }

  /** The entries of a directory: "." and ".." first, names distinct, dead entries all zero. */
  ghost predicate SlotShape(t: seq<DirEntry>) {
    && |t| == 2940
    && t[0].name == DOT && Live(t[0]) && t[1].name == DOTDOT && Live(t[1])
    && (forall c :: 0 <= c < 2940 && !Live(t[c]) ==> t[c] == DEAD)
    && (forall c :: 0 <= c < 2940 && Live(t[c]) ==> t[c].name != [])
    && (forall a, b :: 0 <= a < b < 2940 && Live(t[a]) && Live(t[b]) ==> t[a].name != t[b].name)
  }

  /** What holds of every directory: every block but the first has a live entry, the table is
      there exactly when an indirect block is, and the size counts the live entries. */
  ghost predicate DirShape(v: View) {
    && SlotShape(Slots(v))
    && (forall k :: 0 <= k < 140 ==> (v.ab[k] != 0 <==> HasLive(Slots(v), k)))
    && (v.tab != 0 <==> exists k :: 12 <= k < 140 && v.ab[k] != 0)
    && v.size == 24 * CountLive(Slots(v))
  }

  lemma SlotShapeAfter(t: seq<DirEntry>, c: nat, e: DirEntry)
    requires SlotShape(t) && 2 <= c < 2940
    requires e == DEAD || (Live(e) && e.name != [] && forall x :: 0 <= x < 2940 ==> t[x].name != e.name)
    ensures SlotShape(t[c := e])
  {}

  /** The index arithmetic of slots. */
  lemma SlotIndex(k: nat, j: nat)
    requires k < 140 && j < 21
    ensures 21 * k + j < 2940 && (21 * k + j) / 21 == k && (21 * k + j) % 21 == j
  {}

  function Block(v: View, k: nat): (t: seq<DirEntry>)
    requires k < 140
    ensures |t| == 21
  {
    if v.ab[k] == 0 then seq(21, _ => DEAD) else Entries(v.body[k])
  }

  lemma SlotOfBlock(v: View, k: nat, j: nat)
    requires k < 140 && j < 21
    ensures 21 * k + j < 2940 && Slots(v)[21 * k + j] == Block(v, k)[j]
  {
    SlotIndex(k, j);
  }

  lemma BlockOfSlot(v: View, c: nat)
    requires c < 2940
    ensures Slots(v)[c] == Block(v, c / 21)[c % 21]
  {}

  /** Changing one entry of one block, present or new, changes one slot. */
  lemma SlotsAfterPut(v: View, v': View, k: nat, j: nat, e: DirEntry)
    requires k < 140 && j < 21 && v'.ab[k] != 0
    requires forall l :: 0 <= l < 140 && l != k ==> v'.ab[l] == v.ab[l] && (v.ab[l] != 0 ==> v'.body[l] == v.body[l])
    requires Entries(v'.body[k]) == (if v.ab[k] == 0 then seq(21, _ => DEAD) else Entries(v.body[k]))[j := e]
    ensures 21 * k + j < 2940 && Slots(v') == Slots(v)[21 * k + j := e]
  {
    SlotIndex(k, j);
    var t, t' := Slots(v), Slots(v');
    forall c | 0 <= c < 2940
      ensures t'[c] == t[21 * k + j := e][c]
    {
      if c / 21 == k {
        assert c == 21 * k + c % 21;
      }
    }
  }

  /** Giving back a block whose only live entry is j kills that slot. */
  lemma SlotsAfterDrop(v: View, v': View, k: nat, j: nat)
    requires k < 140 && j < 21 && v.ab[k] != 0 && v'.ab[k] == 0
    requires forall l :: 0 <= l < 140 && l != k ==> v'.ab[l] == v.ab[l] && (v.ab[l] != 0 ==> v'.body[l] == v.body[l])
    requires forall i :: 0 <= i < 21 && i != j ==> Entries(v.body[k])[i] == DEAD
    ensures 21 * k + j < 2940 && Slots(v') == Slots(v)[21 * k + j := DEAD]
  {
    SlotIndex(k, j);
    var t, t' := Slots(v), Slots(v');
    forall c | 0 <= c < 2940
      ensures t'[c] == t[21 * k + j := DEAD][c]
    {
      if c / 21 == k {
        assert c == 21 * k + c % 21;
      }
    }
  }

  /** Entry e went into slot c, the lowest dead one; block c / 21 and the table are there now. */
  ghost predicate Added(v: View, v': View, c: nat, e: DirEntry) {
    && c < 2940 && !Live(Slots(v)[c]) && (forall x :: 0 <= x < c ==> Live(Slots(v)[x]))
    && Slots(v') == Slots(v)[c := e] && v'.size == v.size + 24
    && v'.ab[c / 21] != 0 && (v.ab[c / 21] != 0 ==> v'.ab[c / 21] == v.ab[c / 21])
    && (forall k :: 0 <= k < 140 && k != c / 21 ==> v'.ab[k] == v.ab[k])
    && (v'.tab == v.tab || (c / 21 == 12 && v.ab[12] == 0))
    && (c / 21 >= 12 ==> v'.tab != 0)
  }

  predicate NoIndirect(ab: seq<nat>)
    requires |ab| == 140
  {
    forall k :: 12 <= k < 140 ==> ab[k] == 0
  }

  /** The live entry in slot c is gone, with its block if that held nothing else and is not the
      first one, and with the table if that leaves no indirect block. */
  ghost predicate Removed(v: View, v': View, c: nat) {
    && c < 2940 && Live(Slots(v)[c])
    && Slots(v') == Slots(v)[c := DEAD] && v'.size + 24 == v.size
    && (forall k :: 0 <= k < 140 && k != c / 21 ==> v'.ab[k] == v.ab[k])
    && v'.ab[c / 21] == (if c / 21 != 0 && !HasLive(Slots(v'), c / 21) then 0 else v.ab[c / 21])
    && v'.tab == (if NoIndirect(v'.ab) then 0 else v.tab)
  }

  /** Block liveness of the other blocks does not depend on slot c. */
  lemma OtherBlocks(t: seq<DirEntry>, c: nat, e: DirEntry, k: nat)
    requires |t| == 2940 && c < 2940 && k < 140 && k != c / 21
    ensures HasLive(t[c := e], k) <==> HasLive(t, k)
  {
    if HasLive(t, k) {
      var x :| 21 * k <= x < 21 * k + 21 && Live(t[x]);
      assert Live(t[c := e][x]);
    }
  }

  lemma AddKeepsShape(v: View, v': View, c: nat, e: DirEntry)
    requires DirShape(v) && Added(v, v', c, e) && Live(e) && e.name != []
    requires forall x :: 0 <= x < 2940 ==> Slots(v)[x].name != e.name
    ensures DirShape(v')
  {
    var t, t' := Slots(v), Slots(v');
    CountUpdate(t, c, e);
    SlotShapeAfter(t, c, e);
    forall k | 0 <= k < 140
      ensures v'.ab[k] != 0 <==> HasLive(t', k)
    {
      if k == c / 21 {
        assert 21 * k <= c < 21 * k + 21 && Live(t'[c]);
      } else {
        OtherBlocks(t, c, e, k);
      }
    }
    assert v'.ab[c / 21] != 0;
    if v'.tab != 0 && c / 21 < 12 {
      assert v.tab != 0;
      var k :| 12 <= k < 140 && v.ab[k] != 0;
      assert v'.ab[k] != 0;
    }
  }

  lemma RemoveKeepsBlocks(v: View, v': View, c: nat, k: nat)
    requires DirShape(v) && Removed(v, v', c) && k < 140
    ensures v'.ab[k] != 0 <==> HasLive(Slots(v'), k)
  {
    var t := Slots(v);
    if k == c / 21 {
      assert 21 * k <= c < 21 * k + 21 && Live(t[c]);
      assert k == 0 && c >= 2 ==> Live(Slots(v')[0]);
      assert k == 0 && c == 0 ==> Live(Slots(v')[1]);
      assert k == 0 && c == 1 ==> Live(Slots(v')[0]);
    } else {
      OtherBlocks(t, c, DEAD, k);
    }
  }

  lemma RemoveKeepsTable(v: View, v': View, c: nat)
    requires DirShape(v) && Removed(v, v', c)
    ensures v'.tab != 0 <==> exists k :: 12 <= k < 140 && v'.ab[k] != 0
  {
    assert 21 * (c / 21) <= c < 21 * (c / 21) + 21 && Live(Slots(v)[c]);
    if exists k :: 12 <= k < 140 && v'.ab[k] != 0 {
      var k :| 12 <= k < 140 && v'.ab[k] != 0;
      assert v.ab[k] != 0;
    }
  }

  lemma RemoveKeepsShape(v: View, v': View, c: nat)
    requires DirShape(v) && Removed(v, v', c) && c >= 2
    ensures DirShape(v')
  {
    CountUpdate(Slots(v), c, DEAD);
    forall k | 0 <= k < 140
      ensures v'.ab[k] != 0 <==> HasLive(Slots(v'), k)
    {
      RemoveKeepsBlocks(v, v', c, k);
    }
    RemoveKeepsTable(v, v', c);
    SlotShapeAfter(Slots(v), c, DEAD);
  }

  /** A directory whose children have distinct inode numbers below 256 has at most 13 blocks:
      its indirect table, when there is one, holds exactly block 12. */
  ghost predicate FewChildren(v: View) {
    var t := Slots(v);
    && (forall c :: 2 <= c < 2940 && Live(t[c]) ==> t[c].ino < 256)
    && (forall a, b :: 2 <= a < b < 2940 && Live(t[a]) && Live(t[b]) ==> t[a].ino != t[b].ino)
  }

  lemma FewEntries(v: View)
    requires FewChildren(v)
    ensures CountLive(Slots(v)) <= 258
  {
    CountBound(Slots(v), Numbers(256));
  }

  /** So an entry never goes past block 12: the 273 slots before would all have to be live. */
  lemma FirstFitStaysLow(v: View, v': View, c: nat, e: DirEntry)
    requires FewChildren(v) && Added(v, v', c, e)
    ensures c / 21 <= 12
  {
    if c / 21 > 12 {
      CountPrefix(Slots(v), 273);
      FewEntries(v);
      assert false;
    }
  }

  // ---- where the next entry goes ----

  /** The lowest dead slot, or the number of slots. */
  function FirstDead(t: seq<DirEntry>): (c: nat)
    ensures c <= |t| && (forall x :: 0 <= x < c ==> Live(t[x])) && (c < |t| ==> !Live(t[c]))
  {
    if t == [] || !Live(t[0]) then 0
    else
      var c := FirstDead(t[1..]);
      assert t == [t[0]] + t[1..];
      1 + c
  }

  lemma DeadIsFirst(t: seq<DirEntry>, c: nat)
    requires c < |t| && !Live(t[c]) && forall x :: 0 <= x < c ==> Live(t[x])
    ensures FirstDead(t) == c
  {}

  lemma NoneDead(t: seq<DirEntry>)
    requires forall x :: 0 <= x < |t| ==> Live(t[x])
    ensures FirstDead(t) == |t|
  {}

  /** The blocks that the next entry takes: none when its block is there, a table as well for block 12. */
  function EntryNeed(v: View): nat {
    var k := FirstDead(Slots(v)) / 21;
    if k == 140 || v.ab[k] != 0 then 0 else if k == 12 then 2 else 1
  }
}
