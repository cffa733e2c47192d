/** Sequences of file-system calls: what a whole use of a file leaves behind. */
module Calls {
  import opened Codec
  import opened Store
  import opened Moves
  import opened Directory
  import opened FileMoves
  import opened Consistency
  import opened Bitmap
  import opened Tree
  import opened Partitions
  import opened Room
  import opened Steps
  import opened FdTables

  /** The bytes of all buffers, in order. */
  function Concat(bufs: seq<seq<byte>>): seq<byte> {
    if bufs == [] then [] else Concat(bufs[..|bufs| - 1]) + bufs[|bufs| - 1]
  }

  lemma {:induction false} ConcatPrefix(bufs: seq<seq<byte>>, k: nat)
    requires k < |bufs|
    ensures Concat(bufs[..k + 1]) == Concat(bufs[..k]) + bufs[k]
    ensures |Concat(bufs[..k])| + |bufs[k]| <= |Concat(bufs)|
    decreases |bufs|
  {
    assert bufs[..k + 1][..k] == bufs[..k];
    if k + 1 < |bufs| {
      var b := bufs[..|bufs| - 1];
      ConcatPrefix(b, k);
      assert b[..k + 1] == bufs[..k + 1] && b[..k] == bufs[..k];
    } else {
      assert bufs[..k + 1] == bufs;
    }
  }

  /** Slot fd of s' still holds file i, which alone has changed since s, by the bytes added. */
  ghost predicate Extended(s: Fs, s': Fs, fd: nat, i: nat, bytes: seq<byte>) {
    && OnlyFile(s, s', i) && fd < |s.files| && s.files[fd].Open? && s.files[fd].ino == i
    && fd < |s'.files| && s'.files == s.files[fd := s'.files[fd]] && s'.files[fd].Open? && s'.files[fd].ino == i
    && s'.files[fd].flag == s.files[fd].flag
    && V(s, i).size <= MAX_SIZE && V(s', i).size <= MAX_SIZE && Content(V(s', i)) == Content(V(s, i)) + bytes
  }

  lemma ExtendStart(s: Fs, fd: nat)
    requires Inv(s) && fd < 32 && fd < |s.files| && s.files[fd].Open?
    ensures Extended(s, s, fd, s.files[fd].ino, [])
  {
    hide V, Inv, Content, FileShape, Leaked;
    OpenFileFacts(s, fd);
    ShapeBlocks(V(s, s.files[fd].ino));
  }

  lemma ExtendStep(s: Fs, s1: Fs, s2: Fs, fd: nat, i: nat, bytes: seq<byte>, more: seq<byte>)
    requires Extended(s, s1, fd, i, bytes) && Inv(s1) && Wrote(s1, s2, fd, more)
    ensures Extended(s, s2, fd, i, bytes + more)
  {
    hide V, Inv, Content, Wrote, Leaked, OnlyFile;
    WroteOnly(s1, s2, fd, more);
    OnlyFileTwice(s, s1, s2, i);
    assert Content(V(s, i)) + bytes + more == Content(V(s, i)) + (bytes + more);
  }

  lemma ExtendedSize(s: Fs, s': Fs, fd: nat, i: nat, bytes: seq<byte>)
    requires Extended(s, s', fd, i, bytes) && Inv(s') && fd < 32
    ensures fd < |s.files| && fd < |s'.files| && i in s'.mem
    ensures s'.mem[i].node.size == V(s', i).size == V(s, i).size + |bytes|
    ensures s'.files[fd].Open? && s'.files[fd].ino == i && s'.files[fd].flag == s.files[fd].flag
  {
    hide V, Inv, OnlyFile;
    OpenFileFacts(s', fd);
    assert |Content(V(s', i))| == |Content(V(s, i)) + bytes|;
  }

  /** What k writes of n bytes in all to file i took. */
  ghost predicate Charged(s: Fs, s': Fs, i: nat, k: nat, n: nat) {
    && V(s', i).size == V(s, i).size + n && (if k == 0 then V(s', i) == V(s, i) else V(s', i).ab[0] != 0)
    && |FreeBlocks(s')| + (if k == 0 then 0 else TotalNeed(V(s, i), n)) == |FreeBlocks(s)|
  }

  lemma ChargedStep(s: Fs, s1: Fs, s2: Fs, i: nat, k: nat, n: nat, m: nat)
    requires Charged(s, s1, i, k, n) && V(s2, i).size == V(s1, i).size + m && V(s2, i).ab[0] != 0
    requires |FreeBlocks(s2)| + TotalNeed(V(s1, i), m) == |FreeBlocks(s1)|
    ensures Charged(s, s2, i, k + 1, n + m)
  {
    hide V, FreeBlocks, TotalNeed;
    if k > 0 {
      NeedAdds(V(s, i), V(s1, i), n, m);
    }
  }

  /** Too few blocks for the next write are too few for all of them. */
  lemma ChargedFails(s: Fs, s1: Fs, i: nat, k: nat, n: nat, m: nat, total: nat)
    requires Charged(s, s1, i, k, n) && |FreeBlocks(s1)| < TotalNeed(V(s1, i), m) && n + m <= total
    ensures |FreeBlocks(s)| < TotalNeed(V(s, i), total)
  {
    hide V, FreeBlocks, TotalNeed;
    if k > 0 {
      NeedAdds(V(s, i), V(s1, i), n, m);
    }
    NeedGrows(V(s, i), n + m, total);
  }

  lemma ChargedStart(s: Fs, i: nat)
    ensures Charged(s, s, i, 0, 0)
  {}

  lemma ChargedDone(s: Fs, s1: Fs, i: nat, k: nat, n: nat)
    requires Charged(s, s1, i, k, n)
    ensures k > 0 ==> |FreeBlocks(s1)| + TotalNeed(V(s, i), n) == |FreeBlocks(s)|
    ensures k == 0 ==> |FreeBlocks(s1)| == |FreeBlocks(s)|
  {}

  /** What a successful write leaves of the file's view. */
  lemma WroteView(s: Fs, s': Fs, fd: nat, bytes: seq<byte>)
    requires Inv(s) && Inv(s') && Wrote(s, s', fd, bytes) && fd < 32
    ensures var f := s.files[fd].ino; V(s', f).size == V(s, f).size + |bytes| && V(s', f).ab[0] != 0
  {
    hide V, Owned, DirOk, TreeOk, Slots, FileShape, Content, Tables, Leaked, OpenOk, Numbered;
    var f := s.files[fd].ino;
    var m := s'.(itab := s.itab, files := s.files);
    WroteNodes(s, s', fd, bytes);
    SameButTable(m, s', f);
    GrewSize(s, m, f, bytes);
    HeadOfView(m, f);
  }

  lemma FilesThere(s: Fs)
    requires Inv(s)
    ensures |s.files| == 32
  {
    hide Inv;
    InvFacts(s);
  }

  /** One more sys_write on a slot that some bytes went to. */
  method WriteOne(part: Partition, fd: nat, buf: seq<byte>, ghost s: Fs, ghost i: nat, ghost bytes: seq<byte>,
                  ghost k: nat)
    returns (ok: bool)
    requires Inv(part.S()) && fd < 32 && Extended(s, part.S(), fd, i, bytes) && Charged(s, part.S(), i, k, |bytes|)
    requires V(s, i).size + |bytes| + |buf| < MAX_SIZE && fd < |s.files| && s.files[fd].Open?
    modifies part
    ensures part.fds == old(part.fds)
    ensures ok <==> Writes(s.files[fd].flag) && |FreeBlocks(old(part.S()))| >= TotalNeed(V(old(part.S()), i), |buf|)
    ensures ok ==> Inv(part.S()) && Extended(s, part.S(), fd, i, bytes + buf)
                   && Charged(s, part.S(), i, k + 1, |bytes + buf|)
  {
    hide V, Inv, Core, Extended, Wrote, FreeBlocks, TotalNeed, Leaked, Charged;
    ghost var s1 := part.S();
    ExtendedSize(s, s1, fd, i, bytes);
    FilesThere(s1);
    var r := part.Write(fd, buf);
    ok := r != -1;
    if ok {
      ExtendStep(s, s1, part.S(), fd, i, bytes, buf);
      WroteView(s1, part.S(), fd, buf);
      ChargedStep(s, s1, part.S(), i, k, |bytes|, |buf|);
    }
  }

  /** Repeated sys_write. It succeeds exactly when the file is open for writing and blocks for all the
      buffers are free; then the file has grown by all of them, and nothing else has changed. */
  method WriteAll(part: Partition, fd: nat, bufs: seq<seq<byte>>) returns (ok: bool)
    requires Inv(part.S()) && fd < 32 && fd < |part.files| && part.files[fd].Open?
    requires V(part.S(), part.files[fd].ino).size + |Concat(bufs)| < MAX_SIZE
    modifies part
    ensures part.fds == old(part.fds)
    ensures ok <==> bufs == [] || (Writes(old(part.files)[fd].flag) && |FreeBlocks(old(part.S()))| >=
                                     TotalNeed(V(old(part.S()), old(part.files)[fd].ino), |Concat(bufs)|))
    ensures ok ==> Inv(part.S()) && Extended(old(part.S()), part.S(), fd, old(part.files[fd].ino), Concat(bufs))
    ensures bufs == [] ==> part.S() == old(part.S())
    ensures ok && bufs != [] ==>
              |FreeBlocks(part.S())| + TotalNeed(V(old(part.S()), old(part.files)[fd].ino), |Concat(bufs)|)
                                 == |FreeBlocks(old(part.S()))|
  {
    hide V, Inv, Extended, Concat, Charged, FreeBlocks, TotalNeed;
    ghost var s := part.S();
    ghost var i := part.files[fd].ino;
    ExtendStart(s, fd);
    ChargedStart(s, i);
    ConcatNone(bufs);
    var k := 0;
    while k < |bufs|
      invariant k <= |bufs| && Inv(part.S()) && Extended(s, part.S(), fd, i, Concat(bufs[..k]))
      invariant Charged(s, part.S(), i, k, |Concat(bufs[..k])|) && part.fds == old(part.fds)
      invariant if k == 0 then part.S() == s else Writes(s.files[fd].flag)
    {
      ConcatPrefix(bufs, k);
      ghost var s1 := part.S();
      ok := WriteOne(part, fd, bufs[k], s, i, Concat(bufs[..k]), k);
      if !ok {
        if Writes(s.files[fd].flag) {
          ChargedFails(s, s1, i, k, |Concat(bufs[..k])|, |bufs[k]|, |Concat(bufs)|);
        }
        return;
      }
      k := k + 1;
    }
    assert bufs[..k] == bufs;
    ChargedDone(s, part.S(), i, k, |Concat(bufs)|);
    ok := true;
  }

  lemma ConcatNone(bufs: seq<seq<byte>>)
    ensures Concat(bufs[..0]) == [] && (bufs == [] ==> Concat(bufs) == [])
  {
    assert bufs[..0] == [];
  }

  /** What sys_lseek to the start leaves. */
  lemma SeekKeeps(s: Fs, s': Fs, fd: nat)
    requires Inv(s) && fd < 32 && fd < |s.files| && s.files[fd].Open?
    requires s' == s.(files := s.files[fd := s.files[fd].(pos := 0)])
    ensures Inv(s') && V(s', s.files[fd].ino) == V(s, s.files[fd].ino)
  {
    hide V, Inv;
    OpenFileFacts(s, fd);
    InvMoved(s, s', fd, 0);
  }

  /** Writing, seeking back to the start and reading gives the old bytes and then all the
      buffers, exactly when the writes can be done. */
  method WriteThenRead(part: Partition, fd: nat, bufs: seq<seq<byte>>) returns (ok: bool, data: seq<byte>)
    requires Inv(part.S()) && fd < 32 && fd < |part.files| && part.files[fd].Open?
    requires 0 < V(part.S(), part.files[fd].ino).size + |Concat(bufs)| < 139 * 512
    modifies part
    ensures ok <==> bufs == [] || (Writes(old(part.files)[fd].flag) && |FreeBlocks(old(part.S()))| >=
                                     TotalNeed(V(old(part.S()), old(part.files)[fd].ino), |Concat(bufs)|))
    ensures ok ==> V(old(part.S()), old(part.files[fd].ino)).size <= MAX_SIZE
    ensures ok ==> data == Content(V(old(part.S()), old(part.files[fd].ino))) + Concat(bufs)
  {
    hide V, Inv, Extended, Content, FileShape, Concat, FreeBlocks, TotalNeed;
    ghost var s := part.S();
    ghost var i := part.files[fd].ino;
    data := [];
    ok := WriteAll(part, fd, bufs);
    if ok {
      ghost var s1 := part.S();
      ExtendedSize(s, s1, fd, i, Concat(bufs));
      InvFacts(s1);
      var to := part.Lseek(fd, 0, 1);
      ghost var s2 := part.S();
      SeekKeeps(s1, s2, fd);
      var size := part.mem[part.files[fd].ino].node.size;
      var r;
      r, data := part.Read(fd, size);
      ReadBack(s, s1, fd, i, Concat(bufs), size, data);
    }
  }

  lemma ReadBack(s: Fs, s1: Fs, fd: nat, i: nat, bytes: seq<byte>, n: nat, data: seq<byte>)
    requires Extended(s, s1, fd, i, bytes) && V(s1, i).size == n && n <= MAX_SIZE
    requires data == Content(V(s1, i))[0..n]
    ensures V(s, i).size <= MAX_SIZE && data == Content(V(s, i)) + bytes
  {
    hide V, OnlyFile;
  }

  // ---- reading on ----

  /** What a read of n bytes from position pos gives. */
  function ReadFrom(bytes: seq<byte>, pos: nat, n: nat): seq<byte>
    requires pos <= |bytes|
  {
    if pos + n > |bytes| then bytes[pos..] else bytes[pos..pos + n]
  }

  /** Two reads in a row give what one read of both counts gives. */
  lemma FromTwice(bytes: seq<byte>, pos: nat, m: nat, n: nat)
    requires pos <= |bytes|
    ensures pos + |ReadFrom(bytes, pos, m)| <= |bytes|
    ensures ReadFrom(bytes, pos, m) + ReadFrom(bytes, pos + |ReadFrom(bytes, pos, m)|, n) == ReadFrom(bytes, pos, m + n)
  {}

  /** Slot fd holds a file at a position inside it. */
  ghost predicate Readable(s: Fs, fd: nat) {
    && Inv(s) && fd < 32 && fd < |s.files| && s.files[fd].Open? && s.files[fd].ino in s.mem
    && s.files[fd].pos <= V(s, s.files[fd].ino).size < 139 * 512
  }

  /** sys_read of m bytes, as far as they are there: the position is behind them afterwards. */
  method ReadOn(part: Partition, fd: nat, m: nat) returns (data: seq<byte>)
    requires Readable(part.S(), fd)
    modifies part
    ensures var s, i := old(part.S()), old(part.files)[fd].ino;
            && data == ReadFrom(Content(V(s, i)), s.files[fd].pos, m)
            && part.S() == Positioned(s, fd, s.files[fd].pos + |data|) && Readable(part.S(), fd)
            && V(part.S(), i) == V(s, i)
  {
    hide V, Inv, Content, Blk;
    ghost var s := part.S();
    SizeOpen(s, fd);
    var r;
    r, data := part.Read(fd, m);
    if r == -1 {
      data := [];
      assert part.files[fd := part.files[fd].(pos := part.files[fd].pos)] == part.files;
    }
    SizeOpen(part.S(), fd);
  }

  lemma SizeOpen(s: Fs, fd: nat)
    requires Inv(s) && fd < 32 && fd < |s.files| && s.files[fd].Open?
    ensures var f := s.files[fd].ino;
            f in s.mem && V(s, f).size == s.mem[f].node.size && (V(s, f).size < 139 * 512 ==> Blk(V(s, f).size) < 139)
  {
    hide V, Inv, Owned, FileShape;
    OpenFileFacts(s, fd);
  }

  /** Two calls of sys_read: data, position and everything else are what one call for both counts gives. */
  method ReadTwice(part: Partition, fd: nat, m: nat, n: nat) returns (first: seq<byte>, second: seq<byte>)
    requires Readable(part.S(), fd)
    modifies part
    ensures var s, i := old(part.S()), old(part.files)[fd].ino;
            && first == ReadFrom(Content(V(s, i)), s.files[fd].pos, m)
            && first + second == ReadFrom(Content(V(s, i)), s.files[fd].pos, m + n)
            && part.S() == Positioned(s, fd, s.files[fd].pos + |first + second|)
  {
    hide V, Inv, Content, Readable;
    ghost var s := part.S();
    InsideContent(s, fd);
    first := ReadOn(part, fd, m);
    FromTwice(Content(V(s, s.files[fd].ino)), s.files[fd].pos, m, n);
    second := ReadOn(part, fd, n);
  }

  lemma InsideContent(s: Fs, fd: nat)
    requires Readable(s, fd)
    ensures fd < |s.files| && s.files[fd].Open? && V(s, s.files[fd].ino).size <= MAX_SIZE
    ensures s.files[fd].pos <= |Content(V(s, s.files[fd].ino))|
  {
    hide V, Inv;
  }

  /** Reading in pieces until sys_read answers -1: it comes to an end, with every byte from the position to
      the end of the file, each once and in order. */
  method ReadToEnd(part: Partition, fd: nat, piece: nat) returns (data: seq<byte>)
    requires Readable(part.S(), fd) && piece > 0
    modifies part
    ensures var s, i := old(part.S()), old(part.files)[fd].ino;
            && data == Content(V(s, i))[s.files[fd].pos..]
            && part.S() == Positioned(s, fd, V(s, i).size)
  {
    hide V, Inv, Content, Blk;
    ghost var s := part.S();
    ghost var i := s.files[fd].ino;
    ghost var start := s.files[fd].pos;
    InsideContent(s, fd);
    ghost var all := Content(V(s, i));
    data := [];
    var r := 0;
    assert part.S() == Positioned(s, fd, start);
    while r != -1
      invariant Readable(part.S(), fd) && part.files[fd].ino == i && V(part.S(), i) == V(s, i)
      invariant start + |data| <= |all| && data == all[start..start + |data|]
                && part.S() == Positioned(s, fd, start + |data|)
      invariant r == -1 ==> start + |data| == |all|
      decreases |all| - start - |data| + if r == -1 then 0 else 1
    {
      var more;
      SizeOpen(part.S(), fd);
      r, more := part.Read(fd, piece);
      SizeOpen(part.S(), fd);
      if r != -1 {
        assert all[start..start + |data|] + all[start + |data|..start + |data| + |more|] ==
               all[start..start + |data| + |more|];
        data := data + more;
      }
    }
  }

  /** The position that file_write leaves is that of the last byte written: a read that follows gives this
      byte and no other. */
  method ReadAfterWrite(part: Partition, fd: nat, buf: seq<byte>, count: nat) returns (w: int, r: int, data: seq<byte>)
    requires Inv(part.S()) && fd < 32 && fd < |part.files| && part.files[fd].Open? && buf != [] && count > 0
    requires V(part.S(), part.files[fd].ino).size + |buf| < 139 * 512
    modifies part
    ensures w == -1 <==> !Writes(old(part.files)[fd].flag)
                         || |FreeBlocks(old(part.S()))| < TotalNeed(V(old(part.S()), old(part.files)[fd].ino), |buf|)
    ensures w != -1 ==> w == |buf| && r == 1 && data == [buf[|buf| - 1]]
  {
    hide V, Inv, Content, Blk, Wrote, FreeBlocks, TotalNeed, Leaked, OnlyFile;
    ghost var s := part.S();
    SizeOpen(s, fd);
    w := part.Write(fd, buf);
    r, data := -1, [];
    if w != -1 {
      ghost var s1 := part.S();
      WroteOnly(s, s1, fd, buf);
      WroteView(s, s1, fd, buf);
      WrotePos(s, s1, fd, buf);
      SizeOpen(s1, fd);
      r, data := part.Read(fd, count);
    }
  }

  lemma WrotePos(s: Fs, s1: Fs, fd: nat, buf: seq<byte>)
    requires Wrote(s, s1, fd, buf) && buf != []
    ensures fd < |s1.files| && s1.files[fd].Open? && s1.files[fd].pos == V(s, s.files[fd].ino).size + |buf| - 1
  {
    hide V, FileGrew;
  }

  // ---- create, write, close, unlink ----

  /** The slot that sys_open hands out. */
  lemma MadeFacts(s: Fs, s1: Fs, p: nat, i: nat, c: nat, fd: nat, e: DirEntry, flag: nat)
    requires Inv(s) && FileMade(s, s1, p, i, c, fd, e, flag)
    ensures fd < 32 && fd < |s1.files| && s1.files[fd].Open? && s1.files[fd].ino == i && V(s1, i).size == 0
    ensures Blocks(V(s1, i), 0)
    ensures s1.files[fd].flag == flag
  {
    hide V, Core, Added, Leaked;
  }

  lemma ExtendedOnly(s: Fs, s': Fs, fd: nat, i: nat, bytes: seq<byte>)
    requires Extended(s, s', fd, i, bytes)
    ensures OnlyFile(s, s', i) && fd < |s'.files| && s'.files == s.files[fd := s'.files[fd]]
    ensures s'.files[fd].Open? && s'.files[fd].ino == i
  {
    hide V, OnlyFile, Content;
  }

  /** After the close the new name is still there, and no slot holds its file. */
  lemma NameThere(s: Fs, s1: Fs, s2: Fs, s3: Fs, p: nat, i: nat, c: nat, fd: nat, e: DirEntry, flag: nat)
    requires Inv(s) && p in s.dirs && FileMade(s, s1, p, i, c, fd, e, flag)
    requires OnlyFile(s1, s3, i) && fd < |s2.files| && s2.files == s1.files[fd := s2.files[fd]]
    requires SlotClosed(s2, s3, fd)
    ensures c < 2940 && Removable(s3, p, c, e.name) && CanUnlink(s3, p, e.name)
  {
    hide V, FileShape, Leaked, Owned, TreeOk, Tables, Slots, CountLive, HasLive;
    assert p in s.nodes && p != i;
    assert DirOk(V(s, p));
    assert forall k :: 0 <= k < |s.files| && s.files[k].Open? ==> s.files[k].ino in s.nodes;
  }

  lemma GoneNames(s: Fs, s': Fs, p: nat, i: nat, c: nat, name: seq<byte>)
    requires NodeGone(s, s', p, i, c) && c < 2940 && Removable(s, p, c, name)
    ensures Slots(V(s, p))[c].ino == i && Slots(V(s, p))[c].name == name
  {
    hide V, Slots, Leaked;
  }

  /** The blocks that the first writes to a new file take, n bytes in all. */
  function NewFileNeed(n: nat): nat {
    1 + Need(1, Blk(n) + 1)
  }

  lemma NewFileTakes(v: View, n: nat)
    requires v.size == 0 && Blocks(v, 0)
    ensures TotalNeed(v, n) == NewFileNeed(n)
  {}

  /** Create a file, write the buffers to it, close it and unlink it. It can be done exactly when the
      name is new, an inode, a slot and a descriptor are free, the flag lets the file be written, and
      there are blocks for the entry and for the bytes. Then both in-memory bitmaps are what they were,
      and so are the descriptors, every other inode and the directory's table of entries. */
  method UseOnce(part: Partition, p: nat, name: seq<byte>, flag: nat, bufs: seq<seq<byte>>) returns (ok: bool, r: int)
    requires Inv(part.S()) && p in part.dirs && Storable(DirEntry(name, 0, FT_REGULAR)) && name != []
    requires FirstClear(part.ib) < 256
    requires |Concat(bufs)| < MAX_SIZE
    modifies part
    ensures ok <==> Creatable(old(part.S()), p, name) && HasFreeFd(old(part.fds))
                    && (bufs == [] || (Writes(flag) && |FreeBlocks(old(part.S()))| >=
                                         EntryNeed(V(old(part.S()), p)) + NewFileNeed(|Concat(bufs)|)))
    ensures ok ==> r == 0 && Inv(part.S()) && part.bb == old(part.bb) && part.ib == old(part.ib)
                   && part.fds == old(part.fds)
    ensures ok ==> part.nodes == old(part.nodes) && part.dirs == old(part.dirs)
    ensures ok ==> forall j :: j in old(part.nodes) && j != p ==> V(part.S(), j) == V(old(part.S()), j)
    ensures ok ==> Slots(V(part.S(), p)) == Slots(V(old(part.S()), p))
  {
    hide V, Inv, FileMade, OnlyFile, NodeGone, SlotClosed, Extended, Slots, Removable, Concat, Leaked, Creatable,
         FreeBlocks, TotalNeed,
         EntryNeed, NewFileNeed, CanUnlink, CreateStep, RemoveStep;
    ghost var s := part.S();
    r := -1;
    var fd, made, i, c := part.Create(p, name, flag);
    if fd == -1 {
      return false, -1;
    }
    ghost var s1 := part.S();
    ghost var e := DirEntry(name, i, FT_REGULAR);
    var g := part.fds[fd];
    MadeFacts(s, s1, p, i, c, g, e, flag);
    NewFileTakes(V(s1, i), |Concat(bufs)|);
    ok := WriteAll(part, g, bufs);
    if !ok {
      return;
    }
    ghost var s2 := part.S();
    ExtendedOnly(s1, s2, g, i, Concat(bufs));
    part.SysClose(fd);
    ghost var s3 := part.S();
    ClosedOnly(s2, s3, g, i);
    OnlyFileTwice(s1, s2, s3, i);
    NameThere(s, s1, s2, s3, p, i, c, g, e, flag);
    DirsKept(s1, s3, p, i, s, c, g, e, flag);
    ghost var i', c';
    r, i', c' := part.Unlink(p, name);
    GoneNames(s3, part.S(), p, i', c', name);
    SameEntry(s, s1, s3, p, i, c, g, e, flag, c');
    BitmapsRestored(s, s1, s3, part.S(), p, i, c, g, e, flag);
  }

  lemma DirsKept(s1: Fs, s3: Fs, p: nat, i: nat, s: Fs, c: nat, fd: nat, e: DirEntry, flag: nat)
    requires FileMade(s, s1, p, i, c, fd, e, flag) && OnlyFile(s1, s3, i)
    ensures s3.dirs == s.dirs
  {
    hide V, Leaked, Added;
  }
}
