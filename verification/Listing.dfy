/** Reading a directory entry by entry: dir_read called until it returns NULL. */
module Listing {
  import opened Codec
  import opened Store
  import opened Directory
  import opened Partitions

  /** The live entries of a slot table, in slot order. */
  function LiveList(t: seq<DirEntry>): seq<DirEntry> {
    if t == [] then []
    else LiveList(t[..|t| - 1]) + if Live(t[|t| - 1]) then [t[|t| - 1]] else []
  }

  lemma {:induction false} LiveLength(t: seq<DirEntry>)
    ensures |LiveList(t)| == CountLive(t)
  {
    if t != [] {
      LiveLength(t[..|t| - 1]);
    }
  }

  /** The live entry in slot c stands at position CountLive(t[..c]) of the list. */
  lemma {:induction false} LiveRank(t: seq<DirEntry>, c: nat)
    requires c < |t| && Live(t[c])
    ensures CountLive(t[..c]) < |LiveList(t)| && LiveList(t)[CountLive(t[..c])] == t[c]
  {
    LiveLength(t[..c]);
    if c == |t| - 1 {
      assert t[..c + 1] == t;
    } else {
      var u := t[..|t| - 1];
      assert u[..c] == t[..c];
      LiveRank(u, c);
    }
  }

  /** Nothing but live entries is listed. */
  lemma {:induction false} ListedIsLive(t: seq<DirEntry>, n: nat) returns (c: nat)
    requires n < |LiveList(t)|
    ensures c < |t| && Live(t[c]) && CountLive(t[..c]) == n && LiveList(t)[n] == t[c]
  {
    var m := |t| - 1;
    LiveLength(t[..m]);
    if n < |LiveList(t[..m])| {
      c := ListedIsLive(t[..m], n);
      assert t[..m][..c] == t[..c];
    } else {
      c := m;
    }
  }

  lemma {:induction false} CountMonotone(t: seq<DirEntry>, a: nat, b: nat)
    requires a <= b <= |t|
    ensures CountLive(t[..a]) <= CountLive(t[..b])
  {
    if a < b {
      CountMonotone(t, a, b - 1);
      assert t[..b][..b - 1] == t[..b - 1];
    }
  }

  lemma CountStep(t: seq<DirEntry>, c: nat)
    requires c < |t|
    ensures CountLive(t[..c + 1]) == CountLive(t[..c]) + if Live(t[c]) then 1 else 0
  {
    assert t[..c + 1][..c] == t[..c];
  }

  /** Slots from a on that are all dead add nothing. */
  lemma {:induction false} CountDead(t: seq<DirEntry>, a: nat, b: nat)
    requires a <= b <= |t| && forall c :: a <= c < b ==> !Live(t[c])
    ensures CountLive(t[..b]) == CountLive(t[..a])
  {
    if a < b {
      CountStep(t, b - 1);
      CountDead(t, a, b - 1);
    }
  }

  /** The list has each live entry of a directory exactly once. */
  lemma EachOnce(t: seq<DirEntry>)
    requires SlotShape(t)
    ensures forall e :: e in LiveList(t) <==> e in t && Live(e)
    ensures forall a, b :: 0 <= a < b < |LiveList(t)| ==> LiveList(t)[a].name != LiveList(t)[b].name
  {
    var l := LiveList(t);
    forall e | e in t && Live(e)
      ensures e in l
    {
      var c :| 0 <= c < |t| && t[c] == e;
      LiveRank(t, c);
    }
    forall a | 0 <= a < |l|
      ensures l[a] in t && Live(l[a])
    {
      var c := ListedIsLive(t, a);
    }
    forall a, b | 0 <= a < b < |l|
      ensures l[a].name != l[b].name
    {
      var c := ListedIsLive(t, a);
      var d := ListedIsLive(t, b);
      assert c != d;
    }
  }

  /** Without a table only the first 12 blocks hold entries. */
  lemma DirectOnly(v: View)
    requires DirShape(v) && v.tab == 0
    ensures CountLive(Slots(v)[..252]) == CountLive(Slots(v)[..2940])
  {
    hide Slots, SlotShape;
    var t := Slots(v);
    forall c | 252 <= c < 2940
      ensures !Live(t[c])
    {
      assert 12 <= c / 21 < 140 && 21 * (c / 21) <= c < 21 * (c / 21) + 21;
      assert v.ab[c / 21] == 0;
      assert !HasLive(t, c / 21);
    }
    CountDead(t, 252, 2940);
  }

  lemma MissingBlock(v: View, k: nat)
    requires k < 140 && v.ab[k] == 0
    ensures CountLive(Slots(v)[..21 * (k + 1)]) == CountLive(Slots(v)[..21 * k])
  {
    hide Slots;
    var t := Slots(v);
    forall c | 21 * k <= c < 21 * k + 21
      ensures !Live(t[c])
    {
      SlotOfBlock(v, k, c - 21 * k);
    }
    CountDead(t, 21 * k, 21 * k + 21);
  }

  /** dir_read: the live entry that dir_pos stands at, and NULL after the last one. The code's
      assertion that the count of skipped bytes meets dir_pos holds. */
  method DirRead(part: Partition, d: nat, pos: nat) returns (e: Option<DirEntry>, next: nat)
    requires d in part.mem && DirShape(V(part.S(), d)) && pos % 24 == 0
    ensures var l := LiveList(Slots(V(part.S(), d)));
            if pos / 24 < |l| then e == Some(l[pos / 24]) && next == pos + 24
            else e == None && next == pos
  {
    hide V, DirShape, Slots, CountLive, LiveList;
    ghost var v := V(part.S(), d);
    ghost var t := Slots(v);
    ghost var n := pos / 24;
    assert pos == 24 * n;
    SizeCounts(part, d);
    var ab := part.LoadBlocks(d);
    var cnt := if part.mem[d].node.sec[12] != 0 then 140 else 12;
    var k, cur := 0, 0;
    StartCount(t);
    while k < cnt
      invariant k <= cnt && CountLive(t[..21 * k]) <= n && cur == 24 * CountLive(t[..21 * k])
    {
      if pos >= part.mem[d].node.size {
        LiveLength(t);
        return None, pos;
      }
      if ab[k] == 0 {
        MissingBlock(v, k);
        k := k + 1;
        continue;
      }
      var buf := Entries(At(part.disk, ab[k]));
      var found;
      cur, found := SkipTo(v, k, buf, pos, n, cur);
      if found < 21 {
        SlotOfBlock(v, k, found);
        LiveRank(t, 21 * k + found);
        return Some(buf[found]), pos + 24;
      }
      k := k + 1;
    }
    NoneLeft(v, cnt, n);
    return None, pos;
  }

  lemma StartCount(t: seq<DirEntry>)
    ensures CountLive(t[..0]) == 0
  {}

  lemma SizeCounts(part: Partition, d: nat)
    requires d in part.mem && DirShape(V(part.S(), d))
    ensures part.mem[d].node.size == 24 * CountLive(Slots(V(part.S(), d)))
    ensures part.mem[d].node.sec[12] == V(part.S(), d).tab
  {
    hide Slots, SlotShape;
  }

  lemma NoneLeft(v: View, cnt: nat, n: nat)
    requires DirShape(v) && cnt == (if v.tab != 0 then 140 else 12) && CountLive(Slots(v)[..21 * cnt]) <= n
    ensures |LiveList(Slots(v))| <= n
  {
    hide Slots, SlotShape, LiveList;
    var t := Slots(v);
    if v.tab == 0 {
      DirectOnly(v);
    }
    assert t[..2940] == t;
    LiveLength(t);
  }

  /** The entry loop of dir_read over one block: live entries before position n are skipped, and
      entry `found` is number n, or 21 when it is not in this block. */
  method SkipTo(ghost v: View, ghost k: nat, buf: seq<DirEntry>, pos: nat, ghost n: nat, skipped: nat)
    returns (cur: nat, found: nat)
    requires k < 140 && skipped == 24 * CountLive(Slots(v)[..21 * k])
    requires buf == Block(v, k) && pos == 24 * n && CountLive(Slots(v)[..21 * k]) <= n
    ensures found <= 21
    ensures found == 21 ==> CountLive(Slots(v)[..21 * (k + 1)]) <= n && cur == 24 * CountLive(Slots(v)[..21 * (k + 1)])
    ensures found < 21 ==> Live(buf[found]) && CountLive(Slots(v)[..21 * k + found]) == n
  {
    hide Slots, CountLive;
    ghost var t := Slots(v);
    cur := skipped;
    found := 0;
    while found < 21
      invariant found <= 21 && CountLive(t[..21 * k + found]) <= n
      invariant cur == 24 * CountLive(t[..21 * k + found])
    {
      SlotOfBlock(v, k, found);
      CountStep(t, 21 * k + found);
      if Live(buf[found]) {
        if cur >= pos {
          assert cur == pos;
          return;
        }
        cur := cur + 24;
      }
      found := found + 1;
    }
  }

  /** dir_read from position 0 until it returns NULL: each live entry exactly once. */
  method ReadAll(part: Partition, d: nat) returns (l: seq<DirEntry>)
    requires d in part.mem && DirShape(V(part.S(), d))
    ensures l == LiveList(Slots(V(part.S(), d)))
    ensures forall e :: e in l <==> e in Slots(V(part.S(), d)) && Live(e)
    ensures forall a, b :: 0 <= a < b < |l| ==> l[a].name != l[b].name
  {
    hide V, Slots, LiveList;
    ghost var all := LiveList(Slots(V(part.S(), d)));
    EachOnce(Slots(V(part.S(), d)));
    l := [];
    var e, pos := DirRead(part, d, 0);
    while e.Some?
      invariant |l| <= |all| && l == all[..|l|]
      invariant if |l| < |all| then e == Some(all[|l|]) && pos == 24 * |l| + 24 else e == None
      decreases |all| - |l|
    {
      l := l + [e.value];
      e, pos := DirRead(part, d, pos);
    }
  }
}
