/** lib/kernel/bitmap.c: a byte array read as a sequence of bits, and the scan for a run of clear bits. */
module Bitmap {

  /** BITMAP_MASK << k, for a bit position k inside a byte. */
  function Mask(k: nat): bv8
    requires k < 8
  {
    if k == 0 then 1 else if k == 1 then 2 else if k == 2 then 4 else if k == 3 then 8
    else if k == 4 then 16 else if k == 5 then 32 else if k == 6 then 64 else 128
  }

  predicate BitOf(b: bv8, k: nat)
    requires k < 8
  {
    b & Mask(k) != 0
  }

  /** What bitmap_set does to the byte that holds its bit. */
  function PutBit(b: bv8, k: nat, value: bool): (nb: bv8)
    requires k < 8
    ensures forall j :: 0 <= j < 8 ==> BitOf(nb, j) == if j == k then value else BitOf(b, j)
  {
    if value then b | Mask(k) else b & !Mask(k)
  }

  lemma FullByte(b: bv8)
    ensures b == 0xff <==> forall j :: 0 <= j < 8 ==> BitOf(b, j)
  {
    if forall j :: 0 <= j < 8 ==> BitOf(b, j) {
      assert BitOf(b, 0) && BitOf(b, 1) && BitOf(b, 2) && BitOf(b, 3);
      assert BitOf(b, 4) && BitOf(b, 5) && BitOf(b, 6) && BitOf(b, 7);
    }
  }

  // ---- the specification: searches on a sequence of bits ----

  /** The lowest clear position at or after i, or -1. */
  function FirstClearFrom(bits: seq<bool>, i: nat): (r: int)
    requires i <= |bits|
    ensures r == -1 <==> forall j :: i <= j < |bits| ==> bits[j]
    ensures r != -1 ==> i <= r < |bits| && !bits[r] && forall j :: i <= j < r ==> bits[j]
    decreases |bits| - i
  {
    if i == |bits| then -1 else if !bits[i] then i else FirstClearFrom(bits, i + 1)
  }

  function FirstClear(bits: seq<bool>): (r: int)
    ensures r == -1 <==> forall j :: 0 <= j < |bits| ==> bits[j]
    ensures r != -1 ==> 0 <= r < |bits| && !bits[r] && forall j :: 0 <= j < r ==> bits[j]
  {
    FirstClearFrom(bits, 0)
  }

  /** Positions s..s+cnt are all in range and clear. */
  predicate ClearRun(bits: seq<bool>, s: int, cnt: nat) {
    0 <= s && s + cnt <= |bits| && forall j :: s <= j < s + cnt ==> !bits[j]
  }

  /** `r` is the start of the lowest run of cnt clear positions, or -1 when there is none. */
  ghost predicate LowestRun(bits: seq<bool>, cnt: nat, r: int) {
    && (r == -1 ==> forall s :: !ClearRun(bits, s, cnt))
    && (r != -1 ==> ClearRun(bits, r, cnt) && forall s :: 0 <= s < r ==> !ClearRun(bits, s, cnt))
  }

  ghost predicate HasRun(bits: seq<bool>, cnt: nat) {
    exists s :: ClearRun(bits, s, cnt)
  }

  /** The lowest run of cnt clear positions from s on, or -1. */
  function RunFrom(bits: seq<bool>, cnt: nat, s: nat): (r: int)
    ensures r == -1 ==> forall t :: s <= t ==> !ClearRun(bits, t, cnt)
    ensures r != -1 ==> s <= r && ClearRun(bits, r, cnt) && forall t :: s <= t < r ==> !ClearRun(bits, t, cnt)
    decreases |bits| + 1 - s
  {
    if s + cnt > |bits| then -1 else if ClearRun(bits, s, cnt) then s else RunFrom(bits, cnt, s + 1)
  }

  function FirstRun(bits: seq<bool>, cnt: nat): (r: int)
    ensures LowestRun(bits, cnt, r) && r >= -1
  {
    RunFrom(bits, cnt, 0)
  }

  /** Bits from..from + n set to one value, and no others. */
  function SetRun(bits: seq<bool>, from: nat, n: nat, to: bool): (b: seq<bool>)
    requires from + n <= |bits|
    ensures |b| == |bits| && forall k :: 0 <= k < |b| ==> b[k] == if from <= k < from + n then to else bits[k]
  {
    seq(|bits|, k requires 0 <= k < |bits| => if from <= k < from + n then to else bits[k])
  }

  /** `len` is btmp_bytes_len. The scan reads up to bit 8*len itself, so the byte after the
      map is part of the storage. */
  class Bitmap {
    const bits: array<bv8>
    const len: nat

    ghost predicate Valid()
    {
      len < bits.Length
    }

    constructor (bytes: array<bv8>, n: nat)
      requires n < bytes.Length
      ensures Valid() && bits == bytes && len == n
    {
      bits, len := bytes, n;
    }

    /** bitmap_scan_test. */
    function Test(i: nat): bool
      requires i < 8 * bits.Length
      reads bits
    {
      BitOf(bits[i / 8], i % 8)
    }

    /** The first n bits of the storage. */
    function Bits(n: nat): (b: seq<bool>)
      requires n <= 8 * bits.Length
      reads bits
      ensures |b| == n && forall i :: 0 <= i < n ==> b[i] == Test(i)
    {
      seq(n, i requires 0 <= i < n reads bits => Test(i))
    }

    method Init()
      requires Valid()
      modifies bits
      ensures Bits(8 * len) == seq(8 * len, _ => false)
      ensures bits[len..] == old(bits[len..])
    {
      var i := 0;
      while i < len
        invariant i <= len
        invariant forall k :: 0 <= k < i ==> bits[k] == 0
        invariant bits[len..] == old(bits[len..])
      {
        bits[i] := 0;
        i := i + 1;
      }
    }

    /** bitmap_set: exactly one bit changes. */
    method Set(i: nat, value: bool)
      requires Valid() && i < 8 * bits.Length
      modifies bits
      ensures Bits(8 * bits.Length) == old(Bits(8 * bits.Length))[i := value]
    {
      var byte, odd := i / 8, i % 8;
      ghost var was := bits[..];
      bits[byte] := PutBit(bits[byte], odd, value);
      assert bits[..] == was[byte := PutBit(was[byte], odd, value)];
      forall k | 0 <= k < 8 * bits.Length
        ensures Test(k) == if k == i then value else BitOf(was[k / 8], k % 8)
      {
        assert k / 8 == byte && k % 8 == odd ==> k == i;
      }
    }

    /** The first half of bitmap_scan: the lowest clear bit of the map, or -1. */
    method ScanFirst() returns (r: int)
      requires Valid()
      ensures r == FirstClear(Bits(8 * len))
      ensures r != -1 ==> 0 <= r < 8 * len && !Test(r) && forall j :: 0 <= j < r ==> Test(j)
    {
      var idxByte := 0;
      while idxByte < len && bits[idxByte] == 0xff
        invariant idxByte <= len
        invariant forall i :: 0 <= i < 8 * idxByte ==> Test(i)
      {
        FullByte(bits[idxByte]);
        idxByte := idxByte + 1;
      }
      ghost var map8 := Bits(8 * len);
      if idxByte == len {
        return -1;
      }
      FullByte(bits[idxByte]);
      var idxBit := 0;
      while BitOf(bits[idxByte], idxBit)
        invariant idxBit < 8
        invariant forall j :: 0 <= j < idxBit ==> BitOf(bits[idxByte], j)
        decreases 8 - idxBit
      {
        assert exists j :: idxBit < j < 8 && !BitOf(bits[idxByte], j);
        idxBit := idxBit + 1;
      }
      r := idxByte * 8 + idxBit;
      assert !Test(r);
      assert forall j :: 0 <= j < r ==> Test(j);
      assert map8[r] == Test(r);
    }

    /** bitmap_scan, in its NDEBUG form: a full map gives -1. For cnt == 1 the map's own 8*len
        bits are searched; for a longer run the search also covers the guard bit 8*len. */
    method Scan(cnt: nat) returns (r: int)
      requires Valid() && cnt > 0
      ensures cnt == 1 ==> r == FirstClear(Bits(8 * len))
      ensures cnt > 1 && FirstClear(Bits(8 * len)) == -1 ==> r == -1
      ensures cnt > 1 && FirstClear(Bits(8 * len)) != -1 ==> LowestRun(Bits(8 * len + 1), cnt, r)
      ensures cnt == 1 || Test(8 * len) ==> r == FirstRun(Bits(8 * len), cnt)
      ensures cnt > 1 && FirstClear(Bits(8 * len)) != -1 ==>
                (r == FirstRun(Bits(8 * len), cnt) <==>
                   || Test(8 * len) || HasRun(Bits(8 * len), cnt)
                        || !ClearRun(Bits(8 * len), 8 * len + 1 - cnt, cnt - 1))
    {
      hide BitOf;
      ghost var map8 := Bits(8 * len);
      assert Bits(8 * len + 1)[..8 * len] == map8;
      var start := ScanFirst();
      if start == -1 {
        NoRunInFull(map8, cnt);
        return -1;
      }
      if cnt == 1 {
        ScanIsFirstRun(Bits(8 * len + 1), cnt, start);
        return start;
      }
      r := ScanRun(start, cnt);
      ScanDecides(Bits(8 * len + 1), cnt, r);
    }

    /** The second half of bitmap_scan: count consecutive clear bits after the first clear one. */
    method ScanRun(start: nat, cnt: nat) returns (r: int)
      requires Valid() && cnt > 1 && start < 8 * len && !Test(start)
      requires forall j :: 0 <= j < start ==> Test(j)
      ensures LowestRun(Bits(8 * len + 1), cnt, r) && r >= -1
    {
      ghost var all := Bits(8 * len + 1);
      var left := 8 * len - start;
      var next := start + 1;
      var count := 1;
      r := -1;
      forall s | 0 <= s && s + cnt <= next
        ensures !ClearRun(all, s, cnt)
      {
        assert all[s];
      }
      while left > 0
        invariant left >= 0 && next + left == 8 * len + 1 && start < next
        invariant 0 <= count < cnt && count <= next - start
        invariant forall j :: next - count <= j < next ==> !all[j]
        invariant count < next - start ==> all[next - count - 1]
        invariant forall s :: 0 <= s && s + cnt <= next ==> !ClearRun(all, s, cnt)
        invariant r == -1
        decreases left
      {
        left := left - 1;
        ghost var c0 := count;
        if !Test(next) {
          count := count + 1;
        } else {
          count := 0;
        }
        if count == cnt {
          r := next - cnt + 1;
          assert ClearRun(all, r, cnt);
          return;
        }
        forall s | 0 <= s && s + cnt <= next + 1
          ensures !ClearRun(all, s, cnt)
        {
          if s + cnt == next + 1 {
            NotARun(all, s, cnt, next, c0, start);
          }
        }
        next := next + 1;
      }
    }

    /** Fewer than cnt clear bits end at position next, so no run of cnt does. */
    static lemma NotARun(all: seq<bool>, s: int, cnt: nat, next: nat, c0: nat, start: nat)
      requires cnt > 0 && 0 <= s && s + cnt == next + 1 && next < |all| && start < next && c0 <= next - start
      requires c0 < next - start ==> all[next - c0 - 1]
      requires c0 == next - start && start > 0 ==> all[start - 1]
      requires all[next] || c0 + 1 < cnt
      ensures !ClearRun(all, s, cnt)
    {
      if !all[next] {
        assert s <= next - c0 - 1;
        assert all[next - c0 - 1];
      }
    }
  }

  lemma RunInMap(bits: seq<bool>, cnt: nat, s: int)
    requires |bits| > 0 && cnt > 0
    ensures ClearRun(bits[..|bits| - 1], s, cnt) <==> ClearRun(bits, s, cnt) && s + cnt < |bits|
  {
    var m := bits[..|bits| - 1];
    assert forall j :: 0 <= j < |m| ==> m[j] == bits[j];
  }

  /** A scan of the map and its guard bit answers for the map alone exactly when the guard bit is set,
      or the map has a run of its own, or its last cnt - 1 bits are not all clear. */
  lemma GuardDecides(bits: seq<bool>, cnt: nat, r: int)
    requires |bits| > 0 && cnt > 1 && LowestRun(bits, cnt, r)
    ensures LowestRun(bits[..|bits| - 1], cnt, r) <==>
              || bits[|bits| - 1]
              || HasRun(bits[..|bits| - 1], cnt)
              || !ClearRun(bits[..|bits| - 1], |bits| - cnt, cnt - 1)
  {
    var m := bits[..|bits| - 1];
    forall s
      ensures ClearRun(m, s, cnt) <==> ClearRun(bits, s, cnt) && s + cnt < |bits|
    {
      RunInMap(bits, cnt, s);
    }
    RunInMap(bits, cnt - 1, |bits| - cnt);
    if ClearRun(bits, |bits| - cnt, cnt) {
      assert !bits[|bits| - 1];
      assert ClearRun(bits, |bits| - cnt, cnt - 1);
    } else if !bits[|bits| - 1] && ClearRun(m, |bits| - cnt, cnt - 1) {
      assert ClearRun(bits, |bits| - cnt, cnt);
      assert false;
    }
  }

  lemma LowestIsUnique(bits: seq<bool>, cnt: nat, r: int, q: int)
    requires cnt > 0 && LowestRun(bits, cnt, r) && LowestRun(bits, cnt, q) && r >= -1 && q >= -1
    ensures r == q
  {}

  lemma NoRunInFull(m: seq<bool>, cnt: nat)
    requires cnt > 0 && FirstClear(m) == -1
    ensures FirstRun(m, cnt) == -1
  {
    forall s
      ensures !ClearRun(m, s, cnt)
    {
      assert 0 <= s < |m| ==> m[s];
    }
  }

  /** Under the guard bit, or for one bit, what Scan returns is the lowest run of the map: the search
      that the page allocators rely on. */
  lemma ScanIsFirstRun(bits: seq<bool>, cnt: nat, r: int)
    requires |bits| > 0 && cnt > 0 && r >= -1
    requires if cnt == 1 then r == FirstClear(bits[..|bits| - 1])
             else LowestRun(bits, cnt, r) && bits[|bits| - 1]
    ensures r == FirstRun(bits[..|bits| - 1], cnt)
  {
    var m := bits[..|bits| - 1];
    if cnt == 1 {
      forall s
        ensures ClearRun(m, s, 1) <==> 0 <= s < |m| && !m[s]
      {}
    } else {
      GuardDecides(bits, cnt, r);
    }
    LowestIsUnique(m, cnt, r, FirstRun(m, cnt));
  }

  lemma ScanDecides(bits: seq<bool>, cnt: nat, r: int)
    requires |bits| > 0 && cnt > 1 && LowestRun(bits, cnt, r) && r >= -1
    ensures var m := bits[..|bits| - 1];
            r == FirstRun(m, cnt) <==> bits[|bits| - 1] || HasRun(m, cnt) || !ClearRun(m, |bits| - cnt, cnt - 1)
  {
    var m := bits[..|bits| - 1];
    GuardDecides(bits, cnt, r);
    if LowestRun(m, cnt, r) {
      LowestIsUnique(m, cnt, r, FirstRun(m, cnt));
    }
  }
}
