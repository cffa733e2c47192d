/** The state of a mounted partition, and what each inode owns in it. */
module Store {
  import opened Codec

  /** struct inode without its in-memory fields: 12 direct blocks and the table pointer. */
  datatype InodeRec = InodeRec(no: nat, size: nat, sec: seq<nat>)

  type Inode = n: InodeRec | |n.sec| == 13 witness InodeRec(0, 0, seq(13, _ => 0))

  /** An inode on the open list. */
  datatype MemInode = MemInode(node: Inode, cnt: nat, deny: bool)

  /** A slot of file_table. */
  datatype OpenFile = Closed | Open(ino: nat, pos: nat, flag: nat)

  /** What an inode means: its size, its table pointer, its 140 block numbers and their sectors. */
  datatype ViewRec = ViewRec(size: nat, tab: nat, ab: seq<nat>, body: seq<Sector>)

  type View = v: ViewRec | |v.ab| == 140 && |v.body| == 140
    witness ViewRec(0, 0, seq(140, _ => 0), seq(140, _ => ZERO_SECTOR))

  /** cur_part together with the disk and file_table. The last four fields are bookkeeping:
      the inodes in use, the reference that owns each block, the directories, and the
      directory slot that names each inode. */
  datatype Fs = Fs(
    ds: nat, disk: seq<Sector>, bb: seq<bool>, ib: seq<bool>, itab: seq<Inode>,
    mem: map<nat, MemInode>, files: seq<OpenFile>,
    nodes: set<nat>, own: map<nat, (nat, nat)>, dirs: set<nat>, par: map<nat, (nat, nat)>)

  function At(disk: seq<Sector>, b: nat): Sector {
    if b < |disk| then disk[b] else ZERO_SECTOR
  }

  /** all_blocks as every reader of an inode assembles it. */
  function BlocksOf(disk: seq<Sector>, n: Inode): (ab: seq<nat>)
    ensures |ab| == 140
  {
    n.sec[..12] + (if n.sec[12] == 0 then seq(128, _ => 0) else Table(At(disk, n.sec[12])))
  }

  function SectorsOf(disk: seq<Sector>, ab: seq<nat>): (body: seq<Sector>)
    ensures |body| == |ab|
  {
    seq(|ab|, k requires 0 <= k < |ab| => if ab[k] == 0 then ZERO_SECTOR else At(disk, ab[k]))
  }

  lemma SectorAt(disk: seq<Sector>, ab: seq<nat>, k: nat)
    requires k < |ab|
    ensures SectorsOf(disk, ab)[k] == if ab[k] == 0 then ZERO_SECTOR else At(disk, ab[k])
  {}

  function ViewOf(disk: seq<Sector>, n: Inode): View {
    var ab := BlocksOf(disk, n);
    ViewRec(n.size, n.sec[12], ab, SectorsOf(disk, ab))
  }

  /** The current inode: the open copy if there is one, else the slot on disk. */
  function Node(s: Fs, i: nat): Inode {
    if i in s.mem then s.mem[i].node
    else if i < |s.itab| then s.itab[i]
    else InodeRec(0, 0, seq(13, _ => 0))
  }

  function V(s: Fs, i: nat): View {
    ViewOf(s.disk, Node(s, i))
  }

  /** Reference k of an inode: block k for k < 140, and the table pointer for k == 140. */
  function Ref(v: View, k: nat): nat
    requires k <= 140
  {
    if k == 140 then v.tab else v.ab[k]
  }

  /** The block bitmap's bit for block b. */
  predicate Bit(s: Fs, b: nat) {
    s.ds <= b < s.ds + |s.bb| && s.bb[b - s.ds]
  }

  /** The data blocks are ds..|disk|, and the bitmap's padding bits beyond them are set. */
  predicate Geometry(s: Fs) {
    && 0 < s.ds < |s.disk| <= WORD && |s.disk| <= s.ds + |s.bb|
    && (forall b :: |s.disk| <= b < s.ds + |s.bb| ==> Bit(s, b))
  }

  /** Block b is a data block of the partition whose bitmap bit is clear. */
  predicate FreeBlock(s: Fs, b: nat) {
    s.ds <= b < |s.disk| && !Bit(s, b)
  }

  ghost function Views(s: Fs): map<nat, View> {
    map i | i in s.nodes :: V(s, i)
  }

  /** `own` is exactly the inverse of the references, so no block is referenced twice. */
  ghost predicate OwnedBy(vs: map<nat, View>, own: map<nat, (nat, nat)>) {
    && 0 !in own
    && (forall i, k {:trigger Ref(vs[i], k)} :: i in vs && 0 <= k <= 140 && Ref(vs[i], k) != 0 ==>
          Ref(vs[i], k) in own && own[Ref(vs[i], k)] == (i, k))
    && (forall b :: b in own ==> own[b].0 in vs && own[b].1 <= 140 && Ref(vs[own[b].0], own[b].1) == b)
  }

  /** Every owned block is a data block whose bitmap bit is set. */
  predicate Marked(s: Fs) {
    forall b :: b in s.own ==> s.ds <= b < |s.disk| && Bit(s, b)
  }

  ghost predicate Owned(s: Fs) {
    Geometry(s) && Marked(s) && OwnedBy(Views(s), s.own)
  }

  /** The reading of Owned: two equal references are the same reference, to a marked data block. */
  lemma OneOwner(s: Fs, i: nat, k: nat, j: nat, l: nat)
    requires Owned(s) && i in s.nodes && j in s.nodes && k <= 140 && l <= 140
    requires Ref(V(s, i), k) != 0 && Ref(V(s, i), k) == Ref(V(s, j), l)
    ensures i == j && k == l
    ensures s.ds <= Ref(V(s, i), k) < |s.disk| && Bit(s, Ref(V(s, i), k))
  {
    var vs := Views(s);
    assert s.own[Ref(vs[i], k)] == (i, k);
    assert s.own[Ref(vs[j], l)] == (j, l);
  }

  /** The owner of a nonzero reference. */
  lemma OwnerOf(s: Fs, i: nat, k: nat)
    requires Owned(s) && i in s.nodes && k <= 140
    ensures var b := Ref(V(s, i), k);
            b != 0 ==> b in s.own && s.own[b] == (i, k) && s.ds <= b < |s.disk|
  {
    var vs := Views(s);
    assert vs[i] == V(s, i);
    assert Ref(vs[i], k) != 0 ==> Ref(vs[i], k) in s.own;
  }

  /** Marked data blocks that nothing references. */
  ghost function Leaked(s: Fs): set<nat> {
    set b | s.ds <= b < |s.disk| && Bit(s, b) && b !in s.own
  }

  lemma ViewDepends(disk: seq<Sector>, disk': seq<Sector>, n: Inode)
    requires forall k {:trigger Ref(ViewOf(disk, n), k)} ::
               0 <= k <= 140 && Ref(ViewOf(disk, n), k) != 0 ==>
               At(disk', Ref(ViewOf(disk, n), k)) == At(disk, Ref(ViewOf(disk, n), k))
    ensures ViewOf(disk', n) == ViewOf(disk, n)
  {
    var v, v' := ViewOf(disk, n), ViewOf(disk', n);
    assert v.tab == Ref(v, 140);
    assert v'.ab == v.ab;
    forall k | 0 <= k < 140
      ensures v'.body[k] == v.body[k]
    {
      assert v.ab[k] == Ref(v, k);
    }
  }

  /** An inode whose record and owned sectors are the same means the same. */
  lemma ViewFrame(s: Fs, s': Fs, i: nat)
    requires Owned(s) && i in s.nodes && Node(s', i) == Node(s, i)
    requires forall b :: b in s.own && s.own[b].0 == i ==> At(s'.disk, b) == At(s.disk, b)
    ensures V(s', i) == V(s, i)
  {
    var n := Node(s, i);
    forall k {:trigger Ref(ViewOf(s.disk, n), k)} | 0 <= k <= 140 && Ref(ViewOf(s.disk, n), k) != 0
      ensures At(s'.disk, Ref(ViewOf(s.disk, n), k)) == At(s.disk, Ref(ViewOf(s.disk, n), k))
    {
      OwnerOf(s, i, k);
    }
    ViewDepends(s.disk, s'.disk, n);
  }

  /** Replacing the record of one open inode. */
  function PutNode(s: Fs, d: nat, n: Inode): Fs
    requires d in s.mem
  {
    s.(mem := s.mem[d := s.mem[d].(node := n)])
  }

  /** At most the record of inode d changes on the open list, and not its number. */
  predicate OnlyNode(m: map<nat, MemInode>, m': map<nat, MemInode>, d: nat) {
    && d in m && d in m' && m'.Keys == m.Keys && m' == m[d := m[d].(node := m'[d].node)]
    && m'[d].node.no == m[d].node.no
  }

  /** The table sector of inode d can be rewritten from its block list. */
  lemma BlocksAreWords(s: Fs, d: nat)
    requires Owned(s) && d in s.nodes
    ensures Words(V(s, d).ab[12..])
  {
    forall i | 0 <= i < 128
      ensures V(s, d).ab[12..][i] < WORD
    {
      OwnerOf(s, d, 12 + i);
    }
  }
}
