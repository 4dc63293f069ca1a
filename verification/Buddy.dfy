/** The buddy allocator of kernel/buddy.c: bitmaps, intrusive free lists and the loops over them.

    Every method is proved equal to the corresponding transition of BuddySpec. The list heads
    and the list nodes are addresses in the managed memory itself. */
module Buddy {
  import opened Ring
  import opened BuddySpec
  import opened BuddyTheory
  import opened BuddyInit
  import opened Bitmaps
  import Bits

  /** Size of one entry of the bd_sizes array. */
  const SZ_INFO: nat := 32

  /** Offset of block (k, i) from bd_base, by halving; OffsetIsProduct gives the source's form. */
  function Offset(k: nat, i: nat): (n: nat)
    decreases k
  {
    if k == 0 then LEAF_SIZE * i else Offset(k - 1, 2 * i)
  }

  /** addr */
  function Addr(base: int, k: nat, i: nat): int {
    base + Offset(k, i)
  }

  function Head(base: int, k: nat): int {
    base + SZ_INFO * k
  }

  ghost function Addrs(base: int, k: nat, q: seq<nat>): (r: seq<int>)
    ensures |r| == |q| && forall n :: 0 <= n < |q| ==> r[n] == Addr(base, k, q[n])
  {
    seq(|q|, n requires 0 <= n < |q| => Addr(base, k, q[n]))
  }

  /** The lists in memory are the free lists, size by size. */
  ghost predicate ListsMatch(l: map<int, seq<int>>, base: int, free: seq<seq<nat>>) {
    && (forall k: nat :: k < |free| ==> Head(base, k) in l && l[Head(base, k)] == Addrs(base, k, free[k]))
    && (forall h :: h in l ==> exists k: nat :: k < |free| && h == Head(base, k))
  }

  /** How many leaves the tables take for n sizes: the bd_sizes array and the bitmaps. */
  function TableLeaves(n: nat): nat {
    if n == 0 then 0 else MetaBytes(n - 1) / LEAF_SIZE
  }

  lemma MetaRounded(max: nat)
    ensures MetaBytes(max) % LEAF_SIZE == 0
  {
    hide RowBytes;
  }

  lemma HeadsReserved(n: nat)
    ensures 2 * n <= TableLeaves(n)
  {
    if n > 0 {
      hide MetaBytes;
      TablesCover(n - 1);
    }
  }

  /** The leaves that hold the allocator's tables are never handed out. */
  ghost predicate TablesReserved(s: State) {
    forall x: nat :: x < TableLeaves(|s.alloc|) ==> IsLive(s, 0, x)
  }

  /** A live block that is not one of those leaves. */
  ghost predicate ClientBlock(s: State, k: nat, i: nat) {
    IsLive(s, k, i) && i > 0 && (k > 0 || i >= TableLeaves(|s.alloc|))
  }

  lemma {:induction false} OffsetIsProduct(k: nat, i: nat)
    ensures Offset(k, i) == i * BlkSize(k)
    decreases k
  {
    if k > 0 {
      OffsetIsProduct(k - 1, 2 * i);
      Regroup(i, BlkSize(k - 1));
    }
  }

  lemma Regroup(i: int, b: int)
    ensures (2 * i) * b == i * (2 * b) && (2 * i + 1) * b == (2 * i) * b + b
  {}

  lemma IndexOfAddr(k: nat, i: nat)
    ensures BlkIndex(k, Offset(k, i)) == i
  {
    OffsetIsProduct(k, i);
    BlkIndexIsDiv(k, i * BlkSize(k));
    DivUnique(i * BlkSize(k), BlkSize(k), i);
  }

  lemma {:induction false} IndexAbove(k: nat, d: nat, n: nat)
    ensures BlkIndex(k + d, n) == Anc(BlkIndex(k, n), d)
    decreases d
  {
    if d > 0 {
      IndexAbove(k, d - 1, n);
      AncStep(BlkIndex(k, n), d - 1);
    }
  }

  lemma SameStartOverlaps(k: nat, i: nat, K: nat, I: nat)
    requires Offset(k, i) == Offset(K, I)
    ensures Overlap(k, i, K, I)
  {
    IndexOfAddr(k, i);
    IndexOfAddr(K, I);
    if k <= K {
      IndexAbove(k, K - k, Offset(k, i));
    } else {
      IndexAbove(K, k - K, Offset(k, i));
    }
  }

  /** Two different live or free blocks start at different addresses. */
  lemma StartsDiffer(s: State, k: nat, i: nat, K: nat, I: nat)
    requires Inv(s) && IsTile(s, k, i) && IsTile(s, K, I) && (k != K || i != I)
    ensures Offset(k, i) != Offset(K, I)
  {
    if Offset(k, i) == Offset(K, I) {
      SameStartOverlaps(k, i, K, I);
      TilesApart(s, k, i, K, I);
    }
  }

  // ---- byte ranges ----

  /** Blocks of one size follow each other. */
  lemma {:induction false} OffsetGrows(k: nat, i: nat, j: nat)
    requires i < j
    ensures Offset(k, i) + BlkSize(k) <= Offset(k, j)
    decreases k
  {
    if k > 0 {
      OffsetGrows(k - 1, 2 * i, 2 * i + 1);
      OffsetGrows(k - 1, 2 * i + 1, 2 * j);
    }
  }

  lemma {:induction false} OffsetNext(k: nat, i: nat)
    ensures Offset(k, i + 1) == Offset(k, i) + BlkSize(k)
    decreases k
  {
    if k > 0 {
      OffsetNext(k - 1, 2 * i);
      OffsetNext(k - 1, 2 * i + 1);
    }
  }

  /** A block lies within each of the larger blocks above it. */
  lemma {:induction false} OffsetWithin(k: nat, i: nat, d: nat)
    ensures Offset(k + d, Anc(i, d)) <= Offset(k, i)
    ensures Offset(k, i) + BlkSize(k) <= Offset(k + d, Anc(i, d)) + BlkSize(k + d)
    decreases d
  {
    if d > 0 {
      OffsetWithin(k + 1, i / 2, d - 1);
      assert Offset(k + 1, i / 2) == Offset(k, 2 * (i / 2));
      if i % 2 == 1 { OffsetNext(k, i - 1); }
      assert BlkSize(k + 1) == 2 * BlkSize(k);
    }
  }

  /** Blocks that do not overlap have no byte in common. */
  lemma BytesApart(k: nat, i: nat, K: nat, I: nat)
    requires k <= K && !Overlap(k, i, K, I)
    ensures Offset(k, i) + BlkSize(k) <= Offset(K, I) || Offset(K, I) + BlkSize(K) <= Offset(k, i)
  {
    var a := Anc(i, K - k);
    OffsetWithin(k, i, K - k);
    if a < I { OffsetGrows(K, a, I); } else if I < a { OffsetGrows(K, I, a); }
  }

  /** The bytes of two blocks in use are disjoint, and hold what was asked for. */
  lemma LiveBytesApart(s: State, k: nat, i: nat, K: nat, I: nat)
    requires Inv(s) && IsLive(s, k, i) && IsLive(s, K, I) && (k, i) != (K, I) && k <= K
    ensures Offset(k, i) + BlkSize(k) <= Offset(K, I) || Offset(K, I) + BlkSize(K) <= Offset(k, i)
    ensures forall n: nat :: IsFirstK(n, k) ==> n <= BlkSize(k)
  {
    if Overlap(k, i, K, I) { TilesApart(s, k, i, K, I); }
    BytesApart(k, i, K, I);
  }

  lemma FreeUnlisted(s: State, base: int, l: map<int, seq<int>>, f: seq<seq<nat>>, k: nat, i: nat)
    requires Inv(s) && TablesReserved(s) && k <= s.Max() && i in s.free[k]
    requires |f| == |s.free| && i !in f[k] && forall K: nat, j :: K < |f| && j in f[K] ==> j in s.free[K]
    requires ListsMatch(l, base, f)
    ensures Unlisted(l, Addr(base, k, i))
  {
    assert IsTile(s, k, i);
    assert !IsLive(s, k, i) by { assert OnlyBuddyUsed(s, k, i); }
    forall h | h in l
      ensures !OnRing(h, l[h], Addr(base, k, i))
    {
      var K: nat :| K < |f| && h == Head(base, K);
      HeadsReserved(|s.alloc|);
      assert IsLive(s, 0, 2 * K);
      StartsDiffer(s, k, i, 0, 2 * K);
      assert Offset(0, 2 * K) == SZ_INFO * K;
      forall n | 0 <= n < |f[K]|
        ensures l[h][n] != Addr(base, k, i)
      {
        var j := f[K][n];
        assert j in f[K];
        assert IsTile(s, K, j);
        StartsDiffer(s, k, i, K, j);
      }
    }
  }

  /** The same for a block that a transition has just put at the front of its list. */
  lemma FrontUnlisted(s: State, base: int, l: map<int, seq<int>>, k: nat, f: seq<seq<nat>>)
    requires Inv(s) && TablesReserved(s) && k <= s.Max() && s.free[k] != []
    requires f == s.free[k := s.free[k][1..]] && ListsMatch(l, base, f)
    ensures Unlisted(l, Addr(base, k, s.free[k][0]))
  {
    assert s.free[k][0] in s.free[k];
    FreeUnlisted(s, base, l, f, k, s.free[k][0]);
  }

  lemma HeadListed(l: map<int, seq<int>>, base: int, free: seq<seq<nat>>, k: nat)
    requires ListsMatch(l, base, free) && k < |free|
    ensures Head(base, k) in l && l[Head(base, k)] == Addrs(base, k, free[k])
  {}

  /** Putting a new list at size k keeps the match. */
  lemma MatchUpdate(l: map<int, seq<int>>, base: int, free: seq<seq<nat>>, k: nat, q: seq<nat>, r: seq<int>)
    requires ListsMatch(l, base, free) && k < |free| && r == Addrs(base, k, q)
    ensures ListsMatch(l[Head(base, k) := r], base, free[k := q])
  {}

  lemma MatchPush(l: map<int, seq<int>>, base: int, free: seq<seq<nat>>, k: nat, i: nat)
    requires ListsMatch(l, base, free) && k < |free|
    ensures Head(base, k) in l
    ensures ListsMatch(l[Head(base, k) := [Addr(base, k, i)] + l[Head(base, k)]], base, free[k := [i] + free[k]])
  {
    assert [Addr(base, k, i)] + l[Head(base, k)] == Addrs(base, k, [i] + free[k]);
    MatchUpdate(l, base, free, k, [i] + free[k], [Addr(base, k, i)] + l[Head(base, k)]);
  }

  lemma MatchPop(l: map<int, seq<int>>, base: int, free: seq<seq<nat>>, k: nat)
    requires ListsMatch(l, base, free) && k < |free| && free[k] != []
    ensures Head(base, k) in l && l[Head(base, k)] != [] && l[Head(base, k)][0] == Addr(base, k, free[k][0])
    ensures ListsMatch(l[Head(base, k) := l[Head(base, k)][1..]], base, free[k := free[k][1..]])
  {
    assert l[Head(base, k)][1..] == Addrs(base, k, free[k][1..]);
    MatchUpdate(l, base, free, k, free[k][1..], l[Head(base, k)][1..]);
  }

  lemma MatchRemove(l: map<int, seq<int>>, base: int, free: seq<seq<nat>>, k: nat, n: nat)
    requires ListsMatch(l, base, free) && k < |free| && n < |free[k]|
    ensures Head(base, k) in l && n < |l[Head(base, k)]| && l[Head(base, k)][n] == Addr(base, k, free[k][n])
    ensures ListsMatch(l[Head(base, k) := l[Head(base, k)][..n] + l[Head(base, k)][n + 1..]],
                       base, free[k := free[k][..n] + free[k][n + 1..]])
  {
    var q, r := free[k][..n] + free[k][n + 1..], l[Head(base, k)][..n] + l[Head(base, k)][n + 1..];
    assert r == Addrs(base, k, q);
    MatchUpdate(l, base, free, k, q, r);
  }

  /** firstk: the smallest size of at least n bytes. */
  ghost predicate IsFirstK(n: nat, k: nat) {
    n <= BlkSize(k) && (k > 0 ==> BlkSize(k - 1) < n)
  }

  method FirstK(n: nat) returns (k: nat)
    ensures IsFirstK(n, k)
  {
    k := 0;
    var size := LEAF_SIZE;
    while size < n
      invariant size == BlkSize(k) && (k > 0 ==> BlkSize(k - 1) < n)
      decreases n - size
    {
      k := k + 1;
      size := size * 2;
    }
  }

  /** One row after the inner loop of bd_mark. */
  ghost function SetRange(row: seq<bool>, lo: nat, hi: nat): (r: seq<bool>)
    ensures |r| == |row| && forall i :: 0 <= i < |row| ==> (r[i] <==> row[i] || lo <= i < hi)
  {
    seq(|row|, i requires 0 <= i < |row| => row[i] || lo <= i < hi)
  }

  ghost function ClearRows(max: nat): seq<seq<bool>> {
    seq(max + 1, k requires 0 <= k <= max => seq(Pow2(max - k), _ => false))
  }

  /** Tables of zeroes stand for clear rows. */
  lemma StartsClear(bits: seq<bool>, max: nat)
    requires |bits| == 8 * MetaBytes(max) && forall b :: 0 <= b < |bits| ==> !bits[b]
    ensures var rows := ClearRows(max);
            |rows| == max + 1 && RowsFit(rows, rows, max + 1) && IsClear(rows, rows) && Packed(bits, rows, rows)
    ensures SZ_INFO * (max + 1) <= MetaBytes(max)
  {
    hide MetaBytes, Packed;
    TablesCover(max);
    PackedClear(bits, ClearRows(max), ClearRows(max));
  }

  /** The rows of size k before and after bd_mark of [lo, hi). */
  ghost predicate MarkedAt(alloc: seq<seq<bool>>, split: seq<seq<bool>>, alloc': seq<seq<bool>>, split': seq<seq<bool>>,
                           k: nat, lo: nat, hi: nat)
    requires k < |alloc| && k < |split| && k < |alloc'| && k < |split'|
  {
    && alloc'[k] == SetRange(alloc[k], BlkIndex(k, lo), BlkIndexNext(k, hi))
    && split'[k] == if k == 0 then split[k] else SetRange(split[k], BlkIndex(k, lo), BlkIndexNext(k, hi))
  }

  /** log2 */
  method Log2Of(n: nat) returns (k: nat)
    ensures k == Log2(n)
  {
    k := 0;
    var m := n;
    while m > 1
      invariant k + Log2(m) == Log2(n)
    {
      k := k + 1;
      m := m / 2;
    }
  }

  /** MAXSIZE for len bytes of memory. */
  method MaxSizeFor(len: nat) returns (k: nat)
    ensures k == MaxFor(len)
  {
    k := Log2Of(len / LEAF_SIZE);
    if len > BlkSize(k) {
      k := k + 1;
    }
  }

  /** bd_mark_unavailable's end of memory: the heap less what is unavailable, in whole leaves. */
  method EndOfMemory(max: nat, len: nat) returns (e: nat)
    requires len <= BlkSize(max)
    ensures e == len / LEAF_SIZE * LEAF_SIZE
  {
    var unavailable := BlkSize(max) - len;
    if unavailable > 0 {
      unavailable := RoundUp(unavailable);
    }
    e := BlkSize(max) - unavailable;
  }

  /** The row pointers of bd_sizes are those of the layout; size 0 has no split row. */
  ghost predicate RowsAt(allocAt: seq<nat>, splitAt: seq<nat>, n: nat) {
    && |allocAt| == |splitAt| == n
    && (forall k :: 0 <= k < n ==> allocAt[k] == AllocRow(n - 1, k))
    && (forall k :: 1 <= k < n ==> splitAt[k] == SplitRow(n - 1, k))
  }

  /** bd_init's layout of the bitmaps after the size array: where every row starts and where the
      tables end, as offsets. */
  method LayTables(n: nat) returns (allocAt: seq<nat>, splitAt: seq<nat>, p: nat)
    requires n >= 2
    ensures RowsAt(allocAt, splitAt, n) && p == MetaBytes(n - 1)
  {
    p := SZ_INFO * n;
    allocAt, splitAt := [], [0];
    var k := 0;
    while k < n
      invariant k <= n && |allocAt| == k && (k < n ==> p == AllocRow(n - 1, k))
      invariant k == n ==> p == SZ_INFO * n + RowBytes(n - 1)
      invariant forall j :: 0 <= j < k ==> allocAt[j] == AllocRow(n - 1, j)
    {
      allocAt := allocAt + [p];
      p := p + RowSize(n - 1, k);
      k := k + 1;
    }
    k := 1;
    while k < n
      invariant 1 <= k <= n && |splitAt| == k && (k < n ==> p == SplitRow(n - 1, k))
      invariant k == n ==> p == SZ_INFO * n + RowBytes(n - 1) + RowBytes(n - 2)
      invariant forall j :: 1 <= j < k ==> splitAt[j] == SplitRow(n - 1, j)
    {
      splitAt := splitAt + [p];
      p := p + RowSize(n - 1, k);
      k := k + 1;
    }
    p := RoundUp(p);
  }

  /** The bitmaps are packed in `tables`, the first bytes of the heap; `alloc`, `split` and `free`
      say what the bits and the lists in memory stand for. */
  class Allocator {
    const base: int
    const lists: Lists
    const tables: Bits.BitArray
    var nsizes: nat
    var allocAt: seq<nat>
    var splitAt: seq<nat>
    ghost var alloc: seq<seq<bool>>
    ghost var split: seq<seq<bool>>
    ghost var free: seq<seq<nat>>

    /** bd_init on the memory [start, end). */
    constructor (start: nat, end: nat)
      requires 0 < start && RoundUp(start) <= end
      requires Works(end - RoundUp(start))
      ensures Valid() && fresh(lists) && fresh(tables.bytes) && base == RoundUp(start)
      ensures var len := end - RoundUp(start);
              && nsizes == MaxFor(len) + 1 && nsizes >= 2
              && IsInit(St(), MetaBytes(nsizes - 1), MemEnd(len))
    {
      hide ListsMatch, Inv, TablesReserved, IsInit, Layout, Doubled, BlkSize, MaxFor, RoundUp, Packed, RowsAt,
        MetaBytes, RowsFit, IsClear, ClearRows, Bits.Bools;
      var b := RoundUp(start);
      var len := end - b;
      WorksIff(len);
      base := b;
      lists := new Lists();
      var k := MaxSizeFor(len);
      var at, sat, m := LayTables(k + 1);
      tables := new Bits.BitArray(m);
      nsizes, allocAt, splitAt := k + 1, at, sat;
      alloc := ClearRows(k);
      split := ClearRows(k);
      free := seq(k + 1, _ => []);
      new;
      StartsClear(Bits.Bools(tables.bytes[..]), k);
      InitHeads();
      var e := EndOfMemory(k, len);
      var found := Build(m, e);
      assert found == BlkSize(k) - m - (BlkSize(k) - e);  // otherwise bd_init panics
    }

    /** The bytes of the tables hold the two bitmaps. */
    ghost predicate Backed()
      reads this, tables.bytes
    {
      && nsizes == |alloc| && RowsAt(allocAt, splitAt, nsizes)
      && Packed(Bits.Bools(tables.bytes[..]), alloc, split)
    }

    /** bit_isset, bit_set and bit_clear on bd_sizes[k].alloc. */
    method AllocIsSet(k: nat, i: nat) returns (r: bool)
      requires Backed() && RowsFit(alloc, split, nsizes) && k < nsizes && i < |alloc[k]|
      ensures r == alloc[k][i]
    {
      hide Packed, AllocRow, SplitRow;
      PutAlloc(Bits.Bools(tables.bytes[..]), alloc, split, k, i, true);
      r := tables.IsSet(8 * allocAt[k] + i);
    }

    method SetAlloc(k: nat, i: nat)
      requires Backed() && RowsFit(alloc, split, nsizes) && k < nsizes && i < |alloc[k]|
      modifies this`alloc, tables.bytes
      ensures Backed() && alloc == old(alloc)[k := old(alloc)[k][i := true]]
    {
      hide Packed, AllocRow, SplitRow;
      PutAlloc(Bits.Bools(tables.bytes[..]), alloc, split, k, i, true);
      tables.Set(8 * allocAt[k] + i);
      alloc := alloc[k := alloc[k][i := true]];
    }

    method UnsetAlloc(k: nat, i: nat)
      requires Backed() && RowsFit(alloc, split, nsizes) && k < nsizes && i < |alloc[k]|
      modifies this`alloc, tables.bytes
      ensures Backed() && alloc == old(alloc)[k := old(alloc)[k][i := false]]
    {
      hide Packed, AllocRow, SplitRow;
      PutAlloc(Bits.Bools(tables.bytes[..]), alloc, split, k, i, false);
      tables.Clear(8 * allocAt[k] + i);
      alloc := alloc[k := alloc[k][i := false]];
    }

    /** The same on bd_sizes[k].split. */
    method SplitIsSet(k: nat, i: nat) returns (r: bool)
      requires Backed() && RowsFit(alloc, split, nsizes) && 1 <= k < nsizes && i < |split[k]|
      ensures r == split[k][i]
    {
      hide Packed, AllocRow, SplitRow;
      PutSplit(Bits.Bools(tables.bytes[..]), alloc, split, k, i, true);
      r := tables.IsSet(8 * splitAt[k] + i);
    }

    method SetSplit(k: nat, i: nat)
      requires Backed() && RowsFit(alloc, split, nsizes) && 1 <= k < nsizes && i < |split[k]|
      modifies this`split, tables.bytes
      ensures Backed() && split == old(split)[k := old(split)[k][i := true]]
    {
      hide Packed, AllocRow, SplitRow;
      PutSplit(Bits.Bools(tables.bytes[..]), alloc, split, k, i, true);
      tables.Set(8 * splitAt[k] + i);
      split := split[k := split[k][i := true]];
    }

    method UnsetSplit(k: nat, i: nat)
      requires Backed() && RowsFit(alloc, split, nsizes) && 1 <= k < nsizes && i < |split[k]|
      modifies this`split, tables.bytes
      ensures Backed() && split == old(split)[k := old(split)[k][i := false]]
    {
      hide Packed, AllocRow, SplitRow;
      PutSplit(Bits.Bools(tables.bytes[..]), alloc, split, k, i, false);
      tables.Clear(8 * splitAt[k] + i);
      split := split[k := split[k][i := false]];
    }

    /** The rest of bd_init: mark the tables [0, m) and the memory past e, then fill the lists. */
    method Build(m: nat, e: nat) returns (found: nat)
      requires base > 0 && nsizes >= 2 && m == MetaBytes(nsizes - 1) && Layout(nsizes - 1, m, e)
      requires forall k: nat :: k < nsizes - 1 ==> !Doubled(k, m, e)
      requires RowsFit(alloc, split, nsizes) && IsClear(alloc, split) && Backed()
      requires |free| == nsizes && forall k :: 0 <= k < nsizes ==> free[k] == []
      requires lists.Valid() && ListsMatch(lists.lists, base, free)
      modifies this`alloc, this`split, this`free, lists, tables.bytes
      ensures Valid() && IsInit(St(), m, e) && found == e - m
    {
      hide Inv, TablesReserved, ListsMatch, MetaBytes, Packed, RowsAt;
      MetaRounded(nsizes - 1);
      Mark(0, m);
      ghost var alloc1, split1 := alloc, split;
      Mark(e, BlkSize(nsizes - 1));
      ghost var goal := Goal(old(alloc), old(split), alloc1, split1, alloc, split, nsizes - 1, m, e);
      found := InitFree(m, e, goal);
    }

    /** The lists of all sizes start empty. */
    method InitHeads()
      requires lists.lists == map[] && lists.Valid() && |free| == nsizes
      requires forall k :: 0 <= k < nsizes ==> free[k] == []
      modifies lists
      ensures lists.Valid() && ListsMatch(lists.lists, base, free)
    {
      var k := 0;
      while k < nsizes
        invariant k <= nsizes && lists.Valid()
        invariant forall j: nat :: j < k ==> Head(base, j) in lists.lists && lists.lists[Head(base, j)] == []
        invariant forall h :: h in lists.lists ==> exists j: nat :: j < k && h == Head(base, j)
      {
        ghost var l := lists.lists;
        lists.Init(Head(base, k));
        forall h | h in lists.lists
          ensures exists j: nat :: j < k + 1 && h == Head(base, j)
        {
          if h in l {
            var j: nat :| j < k && h == Head(base, j);
            assert j < k + 1;
          } else {
            assert k < k + 1 && h == Head(base, k);
          }
        }
        k := k + 1;
      }
    }

    /** bd_mark: mark every block that meets [lo, hi) as allocated and, above size 0, as split. */
    method Mark(lo: nat, hi: nat)
      requires RowsFit(alloc, split, nsizes) && Backed()
      requires lo % LEAF_SIZE == 0 && hi % LEAF_SIZE == 0 && 0 < hi && nsizes > 0 && hi <= BlkSize(nsizes - 1)
      modifies this`alloc, this`split, tables.bytes
      ensures RowsFit(alloc, split, nsizes) && Backed()
      ensures forall k: nat :: k < nsizes ==> MarkedAt(old(alloc), old(split), alloc, split, k, lo, hi)
    {
      var k := 0;
      while k < nsizes
        invariant k <= nsizes && RowsFit(alloc, split, nsizes) && Backed()
        invariant forall j: nat :: j < k ==> MarkedAt(old(alloc), old(split), alloc, split, j, lo, hi)
        invariant forall j :: k <= j < nsizes ==> alloc[j] == old(alloc)[j] && split[j] == old(split)[j]
      {
        LeftInRange(nsizes, nsizes - 1, k, hi);
        ghost var alloc1, split1 := alloc, split;
        MarkRow(k, BlkIndex(k, lo), BlkIndexNext(k, hi));
        forall j: nat | j <= k
          ensures MarkedAt(old(alloc), old(split), alloc, split, j, lo, hi)
        {
          assert j < k ==> MarkedAt(old(alloc), old(split), alloc1, split1, j, lo, hi);
        }
        k := k + 1;
      }
    }

    method MarkRow(k: nat, lo: nat, hi: nat)
      requires RowsFit(alloc, split, nsizes) && Backed() && k < nsizes && hi <= |alloc[k]|
      modifies this`alloc, this`split, tables.bytes
      ensures RowsFit(alloc, split, nsizes) && Backed()
      ensures alloc == old(alloc)[k := SetRange(old(alloc)[k], lo, hi)]
      ensures split == if k == 0 then old(split) else old(split)[k := SetRange(old(split)[k], lo, hi)]
    {
      hide Packed, RowsAt;
      assert SetRange(alloc[k], lo, lo) == alloc[k] && SetRange(split[k], lo, lo) == split[k];
      var bi := lo;
      while bi < hi
        invariant lo <= bi && (bi <= hi || bi == lo) && Backed()
        invariant alloc == old(alloc)[k := SetRange(old(alloc)[k], lo, bi)]
        invariant split == if k == 0 then old(split) else old(split)[k := SetRange(old(split)[k], lo, bi)]
      {
        if k > 0 {
          assert SetRange(old(split)[k], lo, bi + 1) == split[k][bi := true];
          SetSplit(k, bi);
        }
        assert SetRange(old(alloc)[k], lo, bi + 1) == alloc[k][bi := true];
        SetAlloc(k, bi);
        bi := bi + 1;
      }
      assert hi < lo ==> SetRange(old(alloc)[k], lo, hi) == SetRange(old(alloc)[k], lo, lo);
      assert hi < lo ==> SetRange(old(split)[k], lo, hi) == SetRange(old(split)[k], lo, lo);
    }

    /** bd_initfree_pair: push the clear half of a pair with one half marked, and count it. */
    method InitFreePair(k: nat, bi: nat, ghost goal: State) returns (found: nat)
      requires GoalOf(goal) && Building(goal) && k < nsizes - 1 && bi < |alloc[k]|
      requires forall i :: i in PairFree(alloc[k], bi, []) ==> i in goal.free[k] && i !in free[k]
      modifies this`free, lists
      ensures Building(goal) && free == old(free)[k := PairFree(alloc[k], bi, old(free)[k])]
      ensures found == if alloc[k][bi] == alloc[k][BuddyOf(bi)] then 0 else BlkSize(k)
    {
      hide ListsMatch, Offset, Packed, RowsAt;
      var buddy := if bi % 2 == 0 then bi + 1 else bi - 1;
      found := 0;
      var used := AllocIsSet(k, bi);
      var buddyUsed := AllocIsSet(k, buddy);
      if used != buddyUsed {
        found := BlkSize(k);
        var i := if used then buddy else bi;
        assert PairFree(alloc[k], bi, []) == [i];
        FreeUnlisted(goal, base, lists.lists, free, k, i);
        MatchPush(lists.lists, base, free, k, i);
        lists.Push(Head(base, k), Addr(base, k, i));
        free := free[k := [i] + free[k]];
      }
    }

    /** While bd_initfree runs, the lists hold a part of what they are going to hold. */
    ghost predicate Building(goal: State)
      reads this, lists
    {
      && |free| == nsizes == |goal.free| && lists.Valid() && ListsMatch(lists.lists, base, free)
      && forall K: nat, j :: K < nsizes && j in free[K] ==> j in goal.free[K]
    }

    ghost predicate GoalOf(goal: State)
      reads this, tables.bytes
    {
      && Backed()
      && nsizes == |alloc| == |split| == |goal.free| && goal.alloc == alloc && goal.split == split
      && Inv(goal) && TablesReserved(goal)
    }

    /** The two visits of bd_initfree at one size. */
    method InitFreeSize(k: nat, m: nat, e: nat, ghost goal: State) returns (found: nat)
      requires GoalOf(goal) && Building(goal) && IsInit(goal, m, e) && k < nsizes - 1 && !Doubled(k, m, e)
      requires free[k] == []
      modifies this`free, lists
      ensures Building(goal) && free == old(free)[k := goal.free[k]] && found == |goal.free[k]| * BlkSize(k)
    {
      hide ListsMatch, TablesReserved, Packed, RowsAt;
      var left := BlkIndexNext(k, m);
      var right := BlkIndex(k, e);
      assert InitAt(goal, k, m, e);
      VisitOnce(alloc[k], left, right);
      found := InitFreePair(k, left, goal);
      if right > left {
        var b := InitFreePair(k, right, goal);
        found := found + b;
      }
      FewTimes(|goal.free[k]|, BlkSize(k));
    }

    /** bd_initfree: visit the left and the right boundary pair of every size. */
    method InitFree(m: nat, e: nat, ghost goal: State) returns (found: nat)
      requires base > 0 && GoalOf(goal) && Building(goal) && IsInit(goal, m, e)
      requires forall k: nat :: k < nsizes - 1 ==> !Doubled(k, m, e)
      requires forall k :: 0 <= k < nsizes ==> free[k] == []
      modifies this`free, lists
      ensures Valid() && St() == goal && found == FreeUnits(goal, nsizes - 1) * LEAF_SIZE
    {
      hide ListsMatch, Distinct, Packed, RowsAt;
      found := InitFreeLoop(m, e, goal);
      assert forall j :: 0 <= j < nsizes ==> free[j] == goal.free[j];
      assert free == goal.free;
    }

    method InitFreeLoop(m: nat, e: nat, ghost goal: State) returns (found: nat)
      requires GoalOf(goal) && Building(goal) && IsInit(goal, m, e)
      requires forall k: nat :: k < nsizes - 1 ==> !Doubled(k, m, e)
      requires forall k :: 0 <= k < nsizes ==> free[k] == []
      modifies this`free, lists
      ensures Building(goal) && found == FreeUnits(goal, nsizes - 1) * LEAF_SIZE
      ensures forall j :: 0 <= j < nsizes - 1 ==> free[j] == goal.free[j]
      ensures free[nsizes - 1] == []
    {
      hide Inv, TablesReserved, ListsMatch, Packed, RowsAt;
      found := 0;
      var k := 0;
      while k < nsizes - 1
        invariant k <= nsizes - 1 && Building(goal) && found == FreeUnits(goal, k) * LEAF_SIZE
        invariant forall j :: 0 <= j < k ==> free[j] == goal.free[j]
        invariant forall j :: k <= j < nsizes ==> free[j] == []
      {
        var a := InitFreeSize(k, m, e, goal);
        found := found + a;
        AddSize(goal, k);
        k := k + 1;
      }
    }

    ghost function St(): State
      reads this
    {
      State(alloc, split, free)
    }

    ghost predicate Valid()
      reads this, lists, tables.bytes
    {
      && base > 0 && Backed()
      && Inv(St()) && TablesReserved(St())
      && lists.Valid() && ListsMatch(lists.lists, base, free)
    }

    /** Pop the front block of size k and mark it allocated. */
    method Take(k: nat) returns (p: int)
      requires Valid() && k < nsizes && free[k] != []
      modifies this, lists, tables.bytes
      ensures Valid() && k < St().Max() && OnlyBuddyUsed(old(St()), k, old(free)[k][0])
      ensures St() == TakeFront(old(St()), k) && p == Addr(base, k, old(free)[k][0])
    {
      hide ListsMatch, Offset, Packed, RowsAt;
      ghost var s := St();
      ghost var i := free[k][0];
      TakeFrontKeeps(s, k);
      TakeFrontLive(s, k);
      MatchPop(lists.lists, base, free, k);
      p := lists.Pop(Head(base, k));
      IndexOfAddr(k, i);
      SetAlloc(k, BlkIndex(k, p - base));
      free := free[k := free[k][1..]];
    }

    /** Split the block at p: mark one half allocated at size k - 1 and push its buddy. */
    method Split(k: nat, p: int, ghost i: nat)
      requires Valid() && k >= 1 && IsLive(St(), k, i) && p == Addr(base, k, i)
      modifies this, lists, tables.bytes
      ensures Valid() && St() == SplitOnce(old(St()), k, i)
    {
      hide ListsMatch, Offset, TablesReserved, Packed, RowsAt;
      ghost var s := St();
      ghost var t := SplitOnce(s, k, i);
      SplitOnceKeeps(s, k, i);
      SplitKeepsTables(s, k, i);
      var q := p + BlkSize(k - 1);
      IndexOfAddr(k, i);
      HalfAddr(k, i);
      IndexOfAddr(k - 1, 2 * i);
      SetSplit(k, BlkIndex(k, p - base));
      SetAlloc(k - 1, BlkIndex(k - 1, p - base));
      assert s.free == t.free[k - 1 := t.free[k - 1][1..]];
      FrontUnlisted(t, base, lists.lists, k - 1, s.free);
      MatchPush(lists.lists, base, s.free, k - 1, 2 * i + 1);
      lists.Push(Head(base, k - 1), q);
      free := t.free;
    }

    /** The search loop of bd_malloc. */
    method FindSize(first: nat) returns (k: nat)
      requires Valid()
      ensures k == if first < nsizes then FindFree(St(), first) else first
    {
      hide ListsMatch, TablesReserved, Packed, RowsAt;
      k := first;
      while k < nsizes
        invariant first <= k && (first >= nsizes ==> k == first)
        invariant (first < nsizes ==> k <= nsizes && FindFree(St(), first) == FindFree(St(), k))
      {
        HeadListed(lists.lists, base, free, k);
        var empty := lists.Empty(Head(base, k));
        assert empty <==> free[k] == [];
        if !empty {
          break;
        }
        k := k + 1;
      }
      assert first < nsizes ==> FindFree(St(), k) == k;
    }

    /** The splitting loop of bd_malloc. */
    method SplitDown(k0: nat, first: nat, p: int, ghost i0: nat)
      requires Valid() && first <= k0 && i0 > 0 && IsLive(St(), k0, i0) && p == Addr(base, k0, i0)
      modifies this, lists, tables.bytes
      ensures Valid() && (St(), Descend(old(St()), k0, i0, first).1) == Descend(old(St()), k0, i0, first)
      ensures p == Addr(base, first, Descend(old(St()), k0, i0, first).1)
    {
      hide ListsMatch, TablesReserved, Packed, RowsAt;
      var k := k0;
      ghost var i: nat := i0;
      while k > first
        invariant Valid() && first <= k
        invariant i > 0 && IsLive(St(), k, i) && p == Addr(base, k, i)
        invariant Descend(St(), k, i, first) == Descend(old(St()), k0, i0, first)
        decreases k
      {
        SplitOnceKeeps(St(), k, i);
        Split(k, p, i);
        i := 2 * i;
        k := k - 1;
      }
    }

    /** bd_malloc. Returns 0, the null pointer, when there is no free block. */
    method Malloc(nbytes: nat) returns (p: int, ghost fk: nat)
      requires Valid()
      modifies this, lists, tables.bytes
      ensures Valid() && IsFirstK(nbytes, fk)
      ensures match BuddySpec.Malloc(old(St()), fk)
              case NoMemory => p == 0 && St() == old(St())
              case Got(s, i) => p == Addr(base, fk, i) && p > 0 && St() == s && ClientBlock(s, fk, i)
    {
      hide ListsMatch, Offset, Packed, RowsAt;
      var first := FirstK(nbytes);
      fk := first;
      var k := FindSize(first);
      ghost var s0 := St();
      if k >= nsizes {
        p := 0;
        return;
      }
      ghost var i: nat := free[k][0];
      MallocIsClientBlock(s0, fk);
      TakeFrontKeeps(s0, k);
      p := Take(k);
      SplitDown(k, first, p, i);
    }

    /** size: the size index of the live block at p, read off the split bits. */
    method Size(p: int, ghost k0: nat, ghost i0: nat) returns (k: int)
      requires Valid() && IsLive(St(), k0, i0) && k0 < St().Max() && p == Addr(base, k0, i0)
      ensures k == k0
    {
      IndexOfAddr(k0, i0);
      k := 0;
      while k < nsizes
        invariant 0 <= k <= k0
      {
        IndexAbove(k0, 1, p - base);
        ParentSplit(St(), k0, i0);
        if k < k0 {
          IndexAbove(k + 1, k0 - (k + 1), p - base);
          WholeBelow(St(), k + 1, BlkIndex(k + 1, p - base), k0);
        }
        var above := SplitIsSet(k + 1, BlkIndex(k + 1, p - base));
        if above {
          return;
        }
        k := k + 1;
      }
      k := 0;
    }

    /** Merge the freed block at p with its free buddy; r is where the merged block starts. */
    method MergeUp(k: nat, p: int, buddy: nat, ghost i: nat) returns (r: int)
      requires base > 0 && Backed() && k < nsizes - 1 && lists.Valid() && ListsMatch(lists.lists, base, free)
      requires Shape(St()) && IsBlock(St(), k, i) && Inv(Before(k, i)) && TablesReserved(Before(k, i))
      requires ClientBlock(Before(k, i), k, i) && p == Addr(base, k, i) && buddy == BuddyOf(i)
      requires !alloc[k][i] && buddy < |alloc[k]| && !alloc[k][buddy]
      modifies this, lists, tables.bytes
      ensures Valid() && buddy in old(free)[k] && St() == Merge(old(Before(k, i)), k, i)
      ensures r == Addr(base, k + 1, i / 2)
    {
      hide Inv, TablesReserved, ListsMatch, Offset, Packed, RowsAt;
      ghost var s := Before(k, i);
      BuddyIsBlock(s, k, i);
      MergeKeeps(s, k, i);
      MergeKeepsTables(s, k, i);
      ghost var t := Merge(s, k, i);
      var q := Addr(base, k, buddy);
      MatchRemove(lists.lists, base, free, k, Position(free[k], buddy));
      lists.Remove(q, Head(base, k), Position(free[k], buddy));
      r := if buddy % 2 == 0 then q else p;
      HalfAddr(k + 1, i / 2);
      IndexOfAddr(k + 1, i / 2);
      UnsetSplit(k + 1, BlkIndex(k + 1, r - base));
      free := t.free;
      assert alloc[k][i := true][i := false] == alloc[k];
      assert alloc == t.alloc;
    }

    /** The state with the bit of block (k, i) still set. */
    ghost function Before(k: nat, i: nat): State
      requires k < |alloc| && i < |alloc[k]|
      reads this
    {
      State(alloc[k := alloc[k][i := true]], split, free)
    }

    /** The body of bd_free's loop: free the block at size k and, unless its buddy is allocated,
        merge the two. */
    method FreeStep(k: nat, p: int, ghost i: nat) returns (done: bool, r: int)
      requires Valid() && ClientBlock(St(), k, i) && k < nsizes - 1 && p == Addr(base, k, i)
      modifies this, lists, tables.bytes
      ensures IsBlock(old(St()), k, BuddyOf(i)) && done == old(alloc)[k][BuddyOf(i)]
      ensures done ==> St() == ClearAlloc(old(St()), k, i) && r == p
      ensures done ==> Backed() && lists.Valid() && ListsMatch(lists.lists, base, free) && nsizes == old(nsizes)
      ensures !done ==>
                Valid() && BuddyOf(i) in old(free)[k] && St() == Merge(old(St()), k, i) && r == Addr(base, k + 1, i / 2)
    {
      ghost var s := St();
      IndexOfAddr(k, i);
      BuddyIsBlock(s, k, i);
      var bi := BlkIndex(k, p - base);
      var buddy := if bi % 2 == 0 then bi + 1 else bi - 1;
      UnsetAlloc(k, bi);
      var buddyUsed := AllocIsSet(k, buddy);
      if buddyUsed {
        return true, p;
      }
      assert alloc[k][i := true] == s.alloc[k];
      assert Before(k, i) == s;
      r := MergeUp(k, p, buddy, i);
      done := false;
    }

    /** bd_free of the live block (k0, i0) at address a. */
    method Free(a: int, ghost k0: nat, ghost i0: nat)
      requires Valid() && ClientBlock(St(), k0, i0) && a == Addr(base, k0, i0)
      modifies this, lists, tables.bytes
      ensures Valid() && St() == Release(old(St()), k0, i0)
    {
      hide ListsMatch, Offset, Packed, RowsAt;
      var p := a;
      var k: nat := Size(p, k0, i0);
      ghost var i: nat := i0;
      ghost var goal := Release(St(), k, i);
      ReleaseSpec(St(), k, i);
      ReleaseKeepsTables(St(), k, i);
      while k < nsizes - 1
        invariant k < nsizes - 1 && Valid()
        invariant ClientBlock(St(), k, i) && p == Addr(base, k, i) && Release(St(), k, i) == goal
        decreases nsizes - k
      {
        ghost var s := St();
        var done, r := FreeStep(k, p, i);
        if done {
          break;
        }
        MergeKeeps(s, k, i);
        p := r;
        TopNotLive(St(), k + 1, i / 2);
        i := i / 2;
        k := k + 1;
      }
      PushLast(k, p, i, goal);
    }

    /** Put the freed block on its free list. */
    method PushLast(k: nat, p: int, ghost i: nat, ghost goal: State)
      requires base > 0 && Backed() && lists.Valid() && ListsMatch(lists.lists, base, free)
      requires k < nsizes == |free| && goal.alloc == alloc && goal.split == split
      requires goal.free == free[k := [i] + free[k]] && Inv(goal) && TablesReserved(goal)
      requires p == Addr(base, k, i)
      modifies this, lists, tables.bytes
      ensures Valid() && St() == goal
    {
      hide Inv, TablesReserved, ListsMatch, Offset, Packed, RowsAt;
      assert free == goal.free[k := goal.free[k][1..]];
      FrontUnlisted(goal, base, lists.lists, k, free);
      MatchPush(lists.lists, base, free, k, i);
      lists.Push(Head(base, k), p);
      free := goal.free;
    }
  }

  lemma MallocIsClientBlock(s: State, fk: nat)
    requires Inv(s) && TablesReserved(s) && Malloc(s, fk).Got?
    ensures ClientBlock(Malloc(s, fk).s, fk, Malloc(s, fk).i)
  {
    MallocSpec(s, fk);
    MallocKeepsSize(s, fk);
  }

  lemma SplitKeepsTables(s: State, k: nat, i: nat)
    requires Inv(s) && k >= 1 && IsLive(s, k, i) && TablesReserved(s)
    ensures TablesReserved(SplitOnce(s, k, i))
  {
    SplitOnceLive(s, k, i);
    forall x: nat | x < TableLeaves(|s.alloc|)
      ensures IsLive(SplitOnce(s, k, i), 0, x)
    {
      assert IsLive(s, 0, x);
    }
  }

  lemma MergeKeepsTables(s: State, k: nat, i: nat)
    requires Inv(s) && ClientBlock(s, k, i) && TablesReserved(s) && k < s.Max() && BuddyOf(i) in s.free[k]
    ensures TablesReserved(Merge(s, k, i))
  {
    MergeLive(s, k, i);
    forall x: nat | x < TableLeaves(|s.alloc|)
      ensures IsLive(Merge(s, k, i), 0, x)
    {
      assert IsLive(s, 0, x);
    }
  }

  ghost function GoalRow(row: seq<bool>, a: nat, b: nat, top: bool): seq<nat> {
    if !top && a < |row| && b < |row| && |row| % 2 == 0 then FreeRow(row, a, b) else []
  }

  /** The state bd_init is going to reach from these bitmaps. */
  ghost function InitGoal(alloc: seq<seq<bool>>, split: seq<seq<bool>>, m: nat, e: nat): (s: State)
    ensures s.alloc == alloc && s.split == split && |s.free| == |alloc|
    ensures forall k :: 0 <= k < |alloc| ==>
              s.free[k] == GoalRow(alloc[k], BlkIndexNext(k, m), BlkIndex(k, e), k == |alloc| - 1)
  {
    State(alloc, split, seq(|alloc|, k requires 0 <= k < |alloc| =>
      GoalRow(alloc[k], BlkIndexNext(k, m), BlkIndex(k, e), k == |alloc| - 1)))
  }

  lemma {:induction false} NextAtLeast(k: nat, n: nat)
    ensures BlkIndexNext(k, n) >= BlkIndex(k, n)
    decreases k
  {
    if k > 0 {
      NextAtLeast(k - 1, n);
    }
  }

  lemma FullMark(max: nat, k: nat)
    requires k <= max
    ensures BlkIndexNext(k, BlkSize(max)) >= Pow2(max - k)
  {
    RightInRange(max, k, BlkSize(max));
    NextAtLeast(k, BlkSize(max));
  }

  /** The two calls of bd_mark on clear bitmaps give the marked rows. */
  lemma MarkedIsInit(s: State, alloc0: seq<seq<bool>>, split0: seq<seq<bool>>, alloc1: seq<seq<bool>>,
                     split1: seq<seq<bool>>, m: nat, e: nat)
    requires Shape(s) && Layout(s.Max(), m, e)
    requires forall k :: 0 <= k <= s.Max() ==>
               s.free[k] == GoalRow(s.alloc[k], BlkIndexNext(k, m), BlkIndex(k, e), k == s.Max())
    requires RowsFit(alloc0, split0, |s.alloc|) && RowsFit(alloc1, split1, |s.alloc|) && IsClear(alloc0, split0)
    requires forall k: nat :: k <= s.Max() ==> MarkedAt(alloc0, split0, alloc1, split1, k, 0, m)
    requires forall k: nat :: k <= s.Max() ==> MarkedAt(alloc1, split1, s.alloc, s.split, k, e, BlkSize(s.Max()))
    ensures IsInit(s, m, e)
  {
    forall k: nat | k <= s.Max()
      ensures InitAt(s, k, m, e)
    {
      MarkedRows(s, alloc0, split0, alloc1, split1, m, e, k);
      RowsAreInit(s, m, e, k);
    }
    MarkedRows(s, alloc0, split0, alloc1, split1, m, e, 0);
  }

  /** The state bd_init is going to reach, and what the theory says about it. */
  lemma Goal(alloc0: seq<seq<bool>>, split0: seq<seq<bool>>, alloc1: seq<seq<bool>>, split1: seq<seq<bool>>,
             alloc2: seq<seq<bool>>, split2: seq<seq<bool>>, max: nat, m: nat, e: nat) returns (goal: State)
    requires |alloc2| == max + 1 && m == MetaBytes(max) && Layout(max, m, e)
    requires forall k: nat :: k < max ==> !Doubled(k, m, e)
    requires RowsFit(alloc0, split0, |alloc2|) && RowsFit(alloc1, split1, |alloc2|) && RowsFit(alloc2, split2, |alloc2|)
    requires IsClear(alloc0, split0)
    requires forall k: nat :: k < |alloc2| ==> MarkedAt(alloc0, split0, alloc1, split1, k, 0, m)
    requires forall k: nat :: k < |alloc2| ==> MarkedAt(alloc1, split1, alloc2, split2, k, e, BlkSize(max))
    ensures goal.alloc == alloc2 && goal.split == split2 && |goal.free| == |alloc2|
    ensures IsInit(goal, m, e) && Inv(goal) && TablesReserved(goal)
    ensures FreeUnits(goal, max) * LEAF_SIZE == e - m
  {
    hide MetaBytes, Inv, TablesReserved;
    goal := InitGoal(alloc2, split2, m, e);
    assert goal.Max() == max;
    MarkedIsInit(goal, alloc0, split0, alloc1, split1, m, e);
    InitInv(goal, m, e);
    InitReserves(goal, m, e);
    InitAccounting(goal, m, e);
  }

  lemma RowsAreInit(s: State, m: nat, e: nat, k: nat)
    requires Shape(s) && Layout(s.Max(), m, e) && k <= s.Max()
    requires s.free[k] == GoalRow(s.alloc[k], BlkIndexNext(k, m), BlkIndex(k, e), k == s.Max())
    requires RowIs(s.alloc[k], BlkIndexNext(k, m), BlkIndex(k, e)) && (k > 0 ==> s.split[k] == s.alloc[k])
    ensures InitAt(s, k, m, e)
  {
    if k < s.Max() {
      RowsInRange(s.Max(), k, m, e);
    }
  }

  lemma MarkedRows(s: State, alloc0: seq<seq<bool>>, split0: seq<seq<bool>>, alloc1: seq<seq<bool>>,
                   split1: seq<seq<bool>>, m: nat, e: nat, k: nat)
    requires RowsFit(s.alloc, s.split, |s.alloc|) && k < |s.alloc|
    requires RowsFit(alloc0, split0, |s.alloc|) && RowsFit(alloc1, split1, |s.alloc|) && IsClear(alloc0, split0)
    requires MarkedAt(alloc0, split0, alloc1, split1, k, 0, m)
    requires MarkedAt(alloc1, split1, s.alloc, s.split, k, e, BlkSize(s.Max()))
    ensures RowIs(s.alloc[k], BlkIndexNext(k, m), BlkIndex(k, e))
    ensures k > 0 ==> s.split[k] == s.alloc[k]
    ensures k == 0 ==> forall j :: 0 <= j < |s.split[0]| ==> !s.split[0][j]
  {
    hide BlkIndex, BlkIndexNext, BlkSize, Pow2;
    ZeroIndex(k);
    FullMark(s.Max(), k);
    var a, b, c := BlkIndexNext(k, m), BlkIndex(k, e), BlkIndexNext(k, BlkSize(s.Max()));
    TwoMarks(s.alloc[k], alloc0[k], alloc1[k], a, b, c);
    if k > 0 {
      TwoMarks(s.split[k], split0[k], split1[k], a, b, c);
      assert RowIs(s.split[k], a, b) && RowIs(s.alloc[k], a, b);
    }
  }

  lemma TwoMarks(row: seq<bool>, row0: seq<bool>, row1: seq<bool>, a: nat, b: nat, c: nat)
    requires forall j :: 0 <= j < |row0| ==> !row0[j]
    requires row1 == SetRange(row0, 0, a) && row == SetRange(row1, b, c) && c >= |row|
    ensures RowIs(row, a, b)
  {}

  lemma {:induction false} ZeroIndex(k: nat)
    ensures BlkIndex(k, 0) == 0
    decreases k
  {
    if k > 0 {
      ZeroIndex(k - 1);
    }
  }

  lemma InitReserves(s: State, m: nat, e: nat)
    requires IsInit(s, m, e) && Inv(s) && m == MetaBytes(s.Max())
    ensures TablesReserved(s)
  {
    hide MetaBytes, BlkIndexNext, BlkIndex, Pow2;
    assert InitAt(s, 0, m, e);
    RowsInRange(s.Max(), 0, m, e);
    FirstLeaves(m);
    hide Inv;
    forall x: nat | x < TableLeaves(|s.alloc|)
      ensures IsLive(s, 0, x)
    {
      assert x < BlkIndexNext(0, m);
    }
  }

  lemma FirstLeaves(m: nat)
    ensures m / LEAF_SIZE <= BlkIndexNext(0, m)
  {}

  /** Apart from the doubled case the two visits push different blocks of the final list. */
  lemma VisitOnce(row: seq<bool>, a: nat, b: nat)
    requires |row| % 2 == 0 && a < |row| && b < |row| && RowIs(row, a, b) && !(a % 2 == 0 && b == a + 1)
    ensures forall i :: i in PairFree(row, a, []) ==> i in FreeRow(row, a, b)
    ensures b > a ==> forall i :: i in PairFree(row, b, []) ==> i in FreeRow(row, a, b) && i !in PairFree(row, a, [])
  {}

  lemma FewTimes(n: nat, b: nat)
    ensures n == 0 ==> n * b == 0
    ensures n == 1 ==> n * b == b
    ensures n == 2 ==> n * b == b + b
  {}

  lemma AddSize(s: State, k: nat)
    requires k < |s.free|
    ensures FreeUnits(s, k + 1) * LEAF_SIZE == FreeUnits(s, k) * LEAF_SIZE + |s.free[k]| * BlkSize(k)
  {}

  lemma TopNotLive(s: State, k: nat, i: nat)
    requires Inv(s) && IsLive(s, k, i) && i > 0
    ensures k < s.Max()
  {}

  /** Nothing below a block that is whole is split. */
  lemma {:induction false} WholeBelow(s: State, k: nat, j: nat, K: nat)
    requires Inv(s) && k <= K <= s.Max() && IsBlock(s, K, Anc(j, K - k)) && !s.split[K][Anc(j, K - k)]
    ensures IsBlock(s, k, j) && !s.split[k][j]
    decreases K - k
  {
    if k < K {
      WholeBelow(s, k + 1, j / 2, K);
      assert IsBlock(s, k, j);
      if s.split[k][j] {
        ParentSplit(s, k, j);
      }
    }
  }

  lemma ReleaseKeepsTables(s: State, k: nat, i: nat)
    requires Inv(s) && ClientBlock(s, k, i) && TablesReserved(s)
    ensures TablesReserved(Release(s, k, i))
  {
    ReleaseSpec(s, k, i);
    ReleaseKeepsSize(s, k, i);
    forall x: nat | x < TableLeaves(|s.alloc|)
      ensures IsLive(Release(s, k, i), 0, x)
    {
      assert IsLive(s, 0, x);
    }
  }

  lemma HalfAddr(k: nat, i: nat)
    requires k > 0
    ensures Offset(k, i) == Offset(k - 1, 2 * i)
    ensures Offset(k, i) + BlkSize(k - 1) == Offset(k - 1, 2 * i + 1)
  {
    OffsetIsProduct(k - 1, 2 * i);
    OffsetIsProduct(k - 1, 2 * i + 1);
    Regroup(i, BlkSize(k - 1));
  }
}
