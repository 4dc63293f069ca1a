/** The heap behind user/umalloc.c as a value. Addresses count headers (16 bytes); address 0 is the
    static `base` header, below everything sbrk returns. */
module KrSpec {

  const BASE := 0

  /** ptr and size are the header fields in memory. `fl` is the free list in address order, starting
      at base; `live` the blocks handed out; `blocks` the size of every block, free or live; `mem`
      every unit that sbrk has returned. */
  datatype Heap = Heap(ptr: map<nat, nat>, size: map<nat, nat>, fl: seq<nat>, live: set<nat>, blocks: map<nat, nat>,
                       mem: iset<nat>)

  function Next(i: nat, n: nat): nat { if i + 1 < n then i + 1 else 0 }

  /** The block at i ends before the next one, in address order, begins; the two touch at most where
      `loose` allows it. */
  ghost predicate GapOr(fl: seq<nat>, size: map<nat, nat>, i: nat, loose: set<nat>)
    requires i + 1 < |fl|
  {
    fl[i] in size && fl[i] < fl[i + 1]
      && (if i in loose then fl[i] + size[fl[i]] <= fl[i + 1] else fl[i] + size[fl[i]] < fl[i + 1])
  }

  ghost predicate LinkAt(ptr: map<nat, nat>, fl: seq<nat>, i: nat)
    requires i < |fl|
  {
    fl[i] in ptr && ptr[fl[i]] == fl[Next(i, |fl|)]
  }

  ghost predicate SizeAt(size: map<nat, nat>, a: nat) { a in size && size[a] > 0 }

  /** The list is circular in address order with one wrap point, and coalesced but for `loose`. */
  ghost predicate ListOk(ptr: map<nat, nat>, size: map<nat, nat>, fl: seq<nat>, loose: set<nat>) {
    && |fl| > 0 && fl[0] == BASE && BASE in size && size[BASE] == 0
    && (forall i: nat :: i < |fl| ==> LinkAt(ptr, fl, i))
    && (forall i: nat :: 0 < i < |fl| ==> SizeAt(size, fl[i]))
    && (forall i: nat :: i + 1 < |fl| ==> GapOr(fl, size, i, loose))
  }

  predicate Inside(u: nat, a: nat, n: nat) { a <= u < a + n }

  ghost function Span(a: nat, n: nat): iset<nat> { iset u: nat | Inside(u, a, n) }

  ghost predicate Clear(blocks: map<nat, nat>, a: nat, b: nat)
    requires a in blocks
  {
    a < b ==> a + blocks[a] <= b
  }

  ghost predicate Covered(blocks: map<nat, nat>, u: nat) {
    exists a :: a in blocks && Inside(u, a, blocks[a])
  }

  /** The blocks tile exactly the memory: none is empty, none reaches into the next, and a unit is
      in one of them exactly when sbrk returned it. */
  ghost predicate Tiled(blocks: map<nat, nat>, mem: iset<nat>) {
    && (forall a :: a in blocks ==> a > BASE && blocks[a] > 0)
    && (forall a, b :: a in blocks && b in blocks ==> Clear(blocks, a, b))
    && (forall u: nat :: u in mem <==> Covered(blocks, u))
  }

  /** Every block is on the list or live, and not both. */
  ghost predicate Sorted(h: Heap) {
    && (forall i: nat :: 0 < i < |h.fl| ==> h.fl[i] in h.blocks && h.fl[i] !in h.live)
    && (forall a :: a in h.live ==> a in h.blocks)
    && (forall a :: a in h.blocks ==> a in h.live || a in h.fl)
    && (forall a :: a in h.blocks ==> a in h.size && h.size[a] == h.blocks[a])
  }

  ghost predicate InvBut(h: Heap, loose: set<nat>) {
    ListOk(h.ptr, h.size, h.fl, loose) && Tiled(h.blocks, h.mem) && Sorted(h)
  }

  ghost predicate Inv(h: Heap) { InvBut(h, {}) }

  // ---- tilings ----

  function SplitBlock(blocks: map<nat, nat>, a: nat, n: nat): map<nat, nat>
    requires a in blocks && n < blocks[a]
  {
    blocks[a := blocks[a] - n][a + (blocks[a] - n) := n]
  }

  lemma SplitTiled(blocks: map<nat, nat>, mem: iset<nat>, a: nat, n: nat)
    requires Tiled(blocks, mem) && a in blocks && 0 < n < blocks[a]
    ensures Tiled(SplitBlock(blocks, a, n), mem) && a + (blocks[a] - n) !in blocks
  {
    var t, c := SplitBlock(blocks, a, n), a + (blocks[a] - n);
    assert c in blocks ==> Clear(blocks, a, c);
    forall x, y | x in t && y in t ensures Clear(t, x, y) {
      assert x in blocks && y in blocks ==> Clear(blocks, x, y);
      assert y in blocks ==> Clear(blocks, a, y);
      assert x in blocks ==> Clear(blocks, x, a);
    }
    forall u: nat ensures Covered(t, u) <==> Covered(blocks, u) {
      if x :| x in blocks && Inside(u, x, blocks[x]) {
        var y := if x != a then x else if u < c then a else c;
        assert y in t && Inside(u, y, t[y]);
      }
      if x :| x in t && Inside(u, x, t[x]) {
        var y := if x == c then a else x;
        assert y in blocks && Inside(u, y, blocks[y]);
      }
    }
  }

  function JoinBlocks(blocks: map<nat, nat>, a: nat, b: nat): map<nat, nat>
    requires a in blocks && b in blocks
  {
    (blocks - {b})[a := blocks[a] + blocks[b]]
  }

  lemma JoinTiled(blocks: map<nat, nat>, mem: iset<nat>, a: nat, b: nat)
    requires Tiled(blocks, mem) && a in blocks && b in blocks && a + blocks[a] == b
    ensures Tiled(JoinBlocks(blocks, a, b), mem)
  {
    var t := JoinBlocks(blocks, a, b);
    forall x, y | x in t && y in t ensures Clear(t, x, y) {
      assert Clear(blocks, x, y) && Clear(blocks, b, y) && Clear(blocks, x, b) && Clear(blocks, y, b);
    }
    forall u: nat ensures Covered(t, u) <==> Covered(blocks, u) {
      if x :| x in blocks && Inside(u, x, blocks[x]) {
        var y := if x == b then a else x;
        assert y in t && Inside(u, y, t[y]);
      }
      if x :| x in t && Inside(u, x, t[x]) {
        var y := if x == a && b <= u then b else x;
        assert y in blocks && Inside(u, y, blocks[y]);
      }
    }
  }

  /** sbrk returned n new units at a. */
  lemma GrowTiled(blocks: map<nat, nat>, mem: iset<nat>, a: nat, n: nat)
    requires Tiled(blocks, mem) && a > BASE && n > 0 && forall u: nat :: Inside(u, a, n) ==> u !in mem
    ensures a !in blocks && Tiled(blocks[a := n], mem + Span(a, n))
  {
    var t := blocks[a := n];
    assert Inside(a, a, n);
    assert !Covered(blocks, a);
    forall x | x in blocks ensures x + blocks[x] <= a || a + n <= x {
      assert Inside(x, x, blocks[x]) && Covered(blocks, x);
      assert !Inside(x, a, n) && !Inside(a, x, blocks[x]);
    }
    forall x, y | x in t && y in t ensures Clear(t, x, y) {
      assert x in blocks && y in blocks ==> Clear(blocks, x, y);
    }
    forall u: nat ensures Covered(t, u) <==> Covered(blocks, u) || Inside(u, a, n) {
      if x :| x in blocks && Inside(u, x, blocks[x]) {
        assert x in t && Inside(u, x, t[x]);
      }
      if Inside(u, a, n) { assert a in t && Inside(u, a, t[a]); }
      if x :| x in t && Inside(u, x, t[x]) {
        assert x != a ==> x in blocks && Inside(u, x, blocks[x]);
      }
    }
  }

  // ---- order ----

  lemma {:induction false} Ordered(fl: seq<nat>, size: map<nat, nat>, loose: set<nat>, i: nat, j: nat)
    requires i < j < |fl| && forall k: nat :: k + 1 < |fl| ==> GapOr(fl, size, k, loose)
    ensures fl[i] in size && fl[i] < fl[j] && fl[i] + size[fl[i]] <= fl[j]
    ensures (i !in loose ==> fl[i] + size[fl[i]] < fl[j])
    decreases j
  {
    assert GapOr(fl, size, i, loose);
    if i + 1 < j {
      Ordered(fl, size, loose, i, j - 1);
      assert GapOr(fl, size, j - 1, loose);
    }
  }

  /** Where a block belongs in the list: after the last one below it. */
  function Spot(fl: seq<nat>, b: nat): (j: nat)
    requires |fl| > 0 && fl[0] < b
    ensures j < |fl| && fl[j] < b && (j + 1 < |fl| ==> b <= fl[j + 1])
  {
    SpotFrom(fl, b, 0)
  }

  function SpotFrom(fl: seq<nat>, b: nat, i: nat): (j: nat)
    requires i < |fl| && fl[i] < b
    ensures i <= j < |fl| && fl[j] < b && (j + 1 < |fl| ==> b <= fl[j + 1])
    decreases |fl| - i
  {
    if i + 1 < |fl| && fl[i + 1] < b then SpotFrom(fl, b, i + 1) else i
  }

  /** Blocks of the list are in order, and a live block is below or above each as a whole. */
  lemma Distinct(h: Heap, loose: set<nat>, i: nat, j: nat)
    requires InvBut(h, loose) && i < |h.fl| && j < |h.fl| && i != j
    ensures h.fl[i] != h.fl[j] && h.fl[i] in h.size
  {
    if i < j { Ordered(h.fl, h.size, loose, i, j); } else { Ordered(h.fl, h.size, loose, j, i); }
    assert i > 0 ==> SizeAt(h.size, h.fl[i]);
  }

  lemma OffList(h: Heap, b: nat, i: nat)
    requires Inv(h) && b in h.live && i < |h.fl|
    ensures h.fl[i] != b && h.fl[i] in h.size && b in h.blocks && (h.fl[i] < b ==> h.fl[i] + h.size[h.fl[i]] <= b)
    ensures (b < h.fl[i] ==> b + h.size[b] <= h.fl[i])
  {
    assert i > 0 ==> h.fl[i] in h.blocks && Clear(h.blocks, h.fl[i], b) && Clear(h.blocks, b, h.fl[i]);
  }

  // ---- taking a block ----

  function Cut(fl: seq<nat>, i: nat): (r: seq<nat>)
    requires i < |fl|
    ensures |r| == |fl| - 1
  {
    fl[..i] + fl[i + 1..]
  }

  function Skip(i: nat, k: nat): nat { if k < i then k else k + 1 }

  lemma CutAt(fl: seq<nat>, i: nat, k: nat)
    requires i < |fl| && k < |fl| - 1
    ensures Cut(fl, i)[k] == fl[Skip(i, k)]
  {}

  /** A free block of just the right size leaves the list. */
  function TakeWhole(h: Heap, i: nat): Heap
    requires 0 < i < |h.fl| && h.fl[i] in h.ptr
  {
    Heap(h.ptr[h.fl[i - 1] := h.ptr[h.fl[i]]], h.size, Cut(h.fl, i), h.live + {h.fl[i]}, h.blocks, h.mem)
  }

  lemma TakeWholeList(h: Heap, i: nat)
    requires Inv(h) && 0 < i < |h.fl|
    ensures LinkAt(h.ptr, h.fl, i) && (var t := TakeWhole(h, i); ListOk(t.ptr, t.size, t.fl, {}))
  {
    hide Cut, Tiled, Sorted;
    assert LinkAt(h.ptr, h.fl, i) && LinkAt(h.ptr, h.fl, i - 1);
    var t := TakeWhole(h, i);
    CutAt(h.fl, i, 0);
    forall k: nat | k < |t.fl| ensures LinkAt(t.ptr, t.fl, k) {
      assert LinkAt(h.ptr, h.fl, Skip(i, k));
      CutAt(h.fl, i, k);
      CutAt(h.fl, i, Next(k, |t.fl|));
      if Skip(i, k) != i - 1 { Distinct(h, {}, Skip(i, k), i - 1); }
    }
    forall k: nat | 0 < k < |t.fl| ensures SizeAt(t.size, t.fl[k]) {
      CutAt(h.fl, i, k);
      assert SizeAt(h.size, h.fl[Skip(i, k)]);
    }
    forall k: nat | k + 1 < |t.fl| ensures GapOr(t.fl, t.size, k, {}) {
      CutAt(h.fl, i, k);
      CutAt(h.fl, i, k + 1);
      Ordered(h.fl, h.size, {}, Skip(i, k), Skip(i, k + 1));
    }
  }

  lemma TakeWholeKeeps(h: Heap, i: nat)
    requires Inv(h) && 0 < i < |h.fl|
    ensures LinkAt(h.ptr, h.fl, i) && Inv(TakeWhole(h, i))
  {
    TakeWholeList(h, i);
    var t := TakeWhole(h, i);
    hide Cut, ListOk, Tiled;
    forall k: nat | 0 < k < |t.fl| ensures t.fl[k] in t.blocks && t.fl[k] !in t.live {
      CutAt(h.fl, i, k);
      Distinct(h, {}, Skip(i, k), i);
    }
    forall a | a in t.blocks ensures a in t.live || a in t.fl {
      if a in h.fl && a != h.fl[i] {
        var k :| 0 <= k < |h.fl| && h.fl[k] == a;
        CutAt(h.fl, i, if k < i then k else k - 1);
      }
    }
  }

  /** The top n units of a larger free block become a live block. */
  function TakeTail(h: Heap, i: nat, n: nat): Heap
    requires 0 < i < |h.fl| && h.fl[i] in h.blocks && n < h.blocks[h.fl[i]]
  {
    var a := h.fl[i];
    var c := a + (h.blocks[a] - n);
    Heap(h.ptr, h.size[a := h.blocks[a] - n][c := n], h.fl, h.live + {c}, SplitBlock(h.blocks, a, n), h.mem)
  }

  lemma TakeTailKeeps(h: Heap, i: nat, n: nat)
    requires Inv(h) && 0 < i < |h.fl| && h.fl[i] in h.blocks && 0 < n < h.blocks[h.fl[i]]
    ensures Inv(TakeTail(h, i, n)) && h.fl[i] + (h.blocks[h.fl[i]] - n) !in h.blocks
  {
    var t, a := TakeTail(h, i, n), h.fl[i];
    var c := a + (h.blocks[a] - n);
    SplitTiled(h.blocks, h.mem, a, n);
    hide Tiled;
    forall k: nat | 0 < k < |t.fl| ensures SizeAt(t.size, t.fl[k]) && t.fl[k] in t.blocks && t.fl[k] !in t.live {
      assert SizeAt(h.size, h.fl[k]) && h.fl[k] in h.blocks;
    }
    forall k: nat | k + 1 < |t.fl| ensures GapOr(t.fl, t.size, k, {}) {
      assert GapOr(h.fl, h.size, k, {});
      if k != i { Distinct(h, {}, k, i); }
    }
  }

  // ---- giving a block back ----

  function Put(fl: seq<nat>, j: nat, b: nat): (r: seq<nat>)
    requires j < |fl|
    ensures |r| == |fl| + 1
  {
    fl[..j + 1] + [b] + fl[j + 1..]
  }

  lemma PutAt(fl: seq<nat>, j: nat, b: nat, k: nat)
    requires j < |fl| && k <= |fl|
    ensures Put(fl, j, b)[k] == if k <= j then fl[k] else if k == j + 1 then b else fl[k - 1]
  {}

  /** A live block goes on the list after the last one below it. */
  function Insert(h: Heap, b: nat, j: nat): Heap
    requires j < |h.fl| && h.fl[j] in h.ptr
  {
    Heap(h.ptr[b := h.ptr[h.fl[j]]][h.fl[j] := b], h.size, Put(h.fl, j, b), h.live - {b}, h.blocks, h.mem)
  }

  lemma InsertList(h: Heap, b: nat, j: nat)
    requires Inv(h) && b in h.live && h.fl[0] < b && j == Spot(h.fl, b)
    ensures LinkAt(h.ptr, h.fl, j) && (var t := Insert(h, b, j); ListOk(t.ptr, t.size, t.fl, {j, j + 1}))
  {
    hide Put, Spot, Tiled;
    assert LinkAt(h.ptr, h.fl, j);
    var t := Insert(h, b, j);
    PutAt(h.fl, j, b, 0);
    forall k: nat | k < |t.fl| ensures LinkAt(t.ptr, t.fl, k) {
      PutAt(h.fl, j, b, k);
      PutAt(h.fl, j, b, Next(k, |t.fl|));
      var k' := if k <= j then k else k - 1;
      assert LinkAt(h.ptr, h.fl, k');
      OffList(h, b, k');
      if k' != j { Distinct(h, {}, k', j); }
    }
    forall k: nat | 0 < k < |t.fl| ensures SizeAt(t.size, t.fl[k]) {
      PutAt(h.fl, j, b, k);
      OffList(h, b, 0);
      assert k != j + 1 ==> SizeAt(h.size, h.fl[if k <= j then k else k - 1]);
      assert b in h.blocks && h.blocks[b] > 0 by { Positive(h, {}, b); }
    }
    var loose := {j, j + 1};
    forall k: nat | k + 1 < |t.fl| ensures GapOr(t.fl, t.size, k, loose) {
      PutAt(h.fl, j, b, k);
      PutAt(h.fl, j, b, k + 1);
      OffList(h, b, j);
      if j + 1 < |h.fl| { OffList(h, b, j + 1); }
      assert k < j ==> GapOr(h.fl, h.size, k, {});
      assert j + 1 < k ==> GapOr(h.fl, h.size, k - 1, {});
    }
  }

  lemma Positive(h: Heap, loose: set<nat>, b: nat)
    requires InvBut(h, loose) && b in h.blocks
    ensures b > BASE && h.blocks[b] > 0 && b in h.size && h.size[b] == h.blocks[b]
  {}

  lemma InsertKeeps(h: Heap, b: nat, j: nat)
    requires Inv(h) && b in h.live && h.fl[0] < b && j == Spot(h.fl, b)
    ensures LinkAt(h.ptr, h.fl, j) && InvBut(Insert(h, b, j), {j, j + 1})
  {
    InsertList(h, b, j);
    var t := Insert(h, b, j);
    hide Put, Spot, ListOk, Tiled;
    forall k: nat | 0 < k < |t.fl| ensures t.fl[k] in t.blocks && t.fl[k] !in t.live {
      PutAt(h.fl, j, b, k);
    }
    forall a | a in t.blocks ensures a in t.live || a in t.fl {
      PutAt(h.fl, j, b, j + 1);
      if a in h.fl {
        var k :| 0 <= k < |h.fl| && h.fl[k] == a;
        PutAt(h.fl, j, b, if k <= j then k else k + 1);
      }
    }
  }

  /** A free block and the next one, which it touches, become one. */
  function Merge(h: Heap, i: nat): Heap
    requires 0 < i && i + 1 < |h.fl| && h.fl[i] in h.blocks && h.fl[i + 1] in h.blocks && h.fl[i + 1] in h.ptr
  {
    var a, c := h.fl[i], h.fl[i + 1];
    Heap(h.ptr[a := h.ptr[c]], h.size[a := h.blocks[a] + h.blocks[c]], Cut(h.fl, i + 1), h.live,
         JoinBlocks(h.blocks, a, c), h.mem)
  }

  ghost predicate Mergeable(h: Heap, loose: set<nat>, i: nat) {
    && InvBut(h, loose) && 0 < i && i + 1 < |h.fl| && h.fl[i] in h.blocks && h.fl[i + 1] in h.blocks
    && LinkAt(h.ptr, h.fl, i + 1)
    && h.fl[i] + h.blocks[h.fl[i]] == h.fl[i + 1] && forall k :: k in loose ==> k <= i + 1
  }

  /** Where the list may still be loose afterwards. */
  function AfterMerge(loose: set<nat>, i: nat): set<nat> { loose - {i, i + 1} + (if i + 1 in loose then {i} else {}) }

  lemma MergeLinks(h: Heap, loose: set<nat>, i: nat, k: nat)
    requires Mergeable(h, loose, i) && k < |h.fl| - 1
    ensures var t := Merge(h, i); LinkAt(t.ptr, t.fl, k) && (k > 0 ==> SizeAt(t.size, t.fl[k]))
  {
    hide Cut, Tiled;
    var t := Merge(h, i);
    CutAt(h.fl, i + 1, k);
    CutAt(h.fl, i + 1, Next(k, |t.fl|));
    assert LinkAt(h.ptr, h.fl, Skip(i + 1, k));
    if Skip(i + 1, k) != i { Distinct(h, loose, Skip(i + 1, k), i); }
    assert k > 0 ==> SizeAt(h.size, h.fl[Skip(i + 1, k)]);
  }

  lemma MergeGap(h: Heap, loose: set<nat>, i: nat, k: nat)
    requires Mergeable(h, loose, i) && k + 1 < |h.fl| - 1
    ensures var t := Merge(h, i); GapOr(t.fl, t.size, k, AfterMerge(loose, i))
  {
    hide Cut, Tiled;
    CutAt(h.fl, i + 1, k);
    CutAt(h.fl, i + 1, k + 1);
    assert GapOr(h.fl, h.size, Skip(i + 1, k), loose);
    assert SizeAt(h.size, h.fl[i]) && SizeAt(h.size, h.fl[i + 1]);
    if k != i {
      Distinct(h, loose, Skip(i + 1, k), i);
    } else {
      assert GapOr(h.fl, h.size, i + 1, loose) && GapOr(h.fl, h.size, i, loose);
    }
  }

  lemma MergeListed(h: Heap, loose: set<nat>, i: nat, k: nat)
    requires Mergeable(h, loose, i) && 0 < k < |Merge(h, i).fl|
    ensures var t := Merge(h, i); t.fl[k] in t.blocks && t.fl[k] !in t.live
  {
    CutAt(h.fl, i + 1, k);
    Distinct(h, loose, Skip(i + 1, k), i + 1);
  }

  lemma MergeCovers(h: Heap, loose: set<nat>, i: nat, a: nat)
    requires Mergeable(h, loose, i) && a in Merge(h, i).blocks
    ensures a in Merge(h, i).live || a in Merge(h, i).fl
  {
    if a in h.fl {
      var k :| 0 <= k < |h.fl| && h.fl[k] == a;
      CutAt(h.fl, i + 1, if k < i + 1 then k else k - 1);
    }
  }

  lemma MergeKeeps(h: Heap, loose: set<nat>, i: nat)
    requires Mergeable(h, loose, i)
    ensures InvBut(Merge(h, i), AfterMerge(loose, i))
  {
    var t, l := Merge(h, i), AfterMerge(loose, i);
    JoinTiled(h.blocks, h.mem, h.fl[i], h.fl[i + 1]);
    Distinct(h, loose, 0, i);
    CutAt(h.fl, i + 1, 0);
    hide Cut, Tiled;
    forall k: nat | 0 < k < |t.fl| ensures t.fl[k] in t.blocks && t.fl[k] !in t.live { MergeListed(h, loose, i, k); }
    assert ListOk(t.ptr, t.size, t.fl, l) by {
      hide LinkAt, SizeAt, GapOr, Mergeable, Sorted;
      forall k: nat | k < |t.fl|
        ensures LinkAt(t.ptr, t.fl, k) && (k > 0 ==> SizeAt(t.size, t.fl[k]))
      {
        MergeLinks(h, loose, i, k);
      }
      forall k: nat | k + 1 < |t.fl| ensures GapOr(t.fl, t.size, k, l) { MergeGap(h, loose, i, k); }
    }
    hide ListOk;
    forall a | a in t.blocks ensures a in t.live || a in t.fl { MergeCovers(h, loose, i, a); }
  }

  lemma Tighten(h: Heap, loose: set<nat>, k: nat)
    requires InvBut(h, loose) && (k + 1 < |h.fl| ==> h.fl[k] in h.size && h.fl[k] + h.size[h.fl[k]] != h.fl[k + 1])
    ensures InvBut(h, loose - {k})
  {
    hide Tiled, Sorted;
    var l := loose - {k};
    forall i: nat | i + 1 < |h.fl| ensures GapOr(h.fl, h.size, i, l) {
      assert GapOr(h.fl, h.size, i, loose);
    }
  }

  /** After Insert, the block is merged with the next one when they touch. */
  function MergeUp(h: Heap, j: nat): Heap
    requires j + 1 < |h.fl| && h.fl[j + 1] in h.blocks
    requires j + 2 < |h.fl| ==> h.fl[j + 2] in h.blocks && h.fl[j + 2] in h.ptr
  {
    if j + 2 < |h.fl| && h.fl[j + 1] + h.blocks[h.fl[j + 1]] == h.fl[j + 2] then Merge(h, j + 1) else h
  }

  lemma MergeUpKeeps(h: Heap, j: nat)
    requires InvBut(h, {j, j + 1}) && j + 1 < |h.fl|
    ensures h.fl[j + 1] in h.blocks && (j + 2 < |h.fl| ==> h.fl[j + 2] in h.blocks && LinkAt(h.ptr, h.fl, j + 2))
    ensures InvBut(MergeUp(h, j), {j}) && |MergeUp(h, j).fl| > j + 1
    ensures MergeUp(h, j).fl[j] == h.fl[j] && MergeUp(h, j).fl[j + 1] == h.fl[j + 1]
    ensures h.fl[j + 1] in MergeUp(h, j).blocks
  {
    assert j + 2 < |h.fl| ==> LinkAt(h.ptr, h.fl, j + 2);
    assert h.fl[j + 1] in h.blocks;
    if j + 2 < |h.fl| && h.fl[j + 1] + h.blocks[h.fl[j + 1]] == h.fl[j + 2] {
      MergeKeeps(h, {j, j + 1}, j + 1);
      CutAt(h.fl, j + 2, j);
      CutAt(h.fl, j + 2, j + 1);
      assert AfterMerge({j, j + 1}, j + 1) == {j};
    } else {
      Tighten(h, {j, j + 1}, j + 1);
      assert {j, j + 1} - {j + 1} == {j};
    }
  }

  /** Then the one before it takes it in when they touch. */
  function MergeDown(h: Heap, j: nat): Heap
    requires j + 1 < |h.fl| && h.fl[j + 1] in h.blocks && h.fl[j + 1] in h.ptr && (j > 0 ==> h.fl[j] in h.blocks)
  {
    if j > 0 && h.fl[j] + h.blocks[h.fl[j]] == h.fl[j + 1] then Merge(h, j) else h
  }

  lemma MergeDownKeeps(h: Heap, j: nat)
    requires InvBut(h, {j}) && j + 1 < |h.fl|
    ensures h.fl[j + 1] in h.blocks && LinkAt(h.ptr, h.fl, j + 1) && (j > 0 ==> h.fl[j] in h.blocks)
    ensures Inv(MergeDown(h, j)) && |MergeDown(h, j).fl| > j && MergeDown(h, j).fl[j] == h.fl[j]
  {
    assert LinkAt(h.ptr, h.fl, j + 1);
    assert h.fl[j + 1] in h.blocks && (j > 0 ==> h.fl[j] in h.blocks);
    if j > 0 && h.fl[j] + h.blocks[h.fl[j]] == h.fl[j + 1] {
      MergeKeeps(h, {j}, j);
      CutAt(h.fl, j + 1, j);
      assert AfterMerge({j}, j) == {};
    } else {
      Tighten(h, {j}, j);
      assert {j} - {j} == {};
    }
  }

  /** free: the block goes back on the list and is merged with its neighbours. */
  ghost function PutBack(h: Heap, b: nat): Heap
    requires Inv(h) && b in h.live && h.fl[0] < b
  {
    var j := Spot(h.fl, b);
    InsertKeeps(h, b, j);
    PutAt(h.fl, j, b, j + 1);
    MergeUpKeeps(Insert(h, b, j), j);
    MergeDownKeeps(MergeUp(Insert(h, b, j), j), j);
    MergeDown(MergeUp(Insert(h, b, j), j), j)
  }

  /** What free keeps: every invariant, the other live blocks, and the memory. */
  lemma PutBackKeeps(h: Heap, b: nat)
    requires Inv(h) && b in h.live
    ensures h.fl[0] < b && (var t := PutBack(h, b);
      && Inv(t) && t.live == h.live - {b} && t.mem == h.mem && |t.fl| > Spot(h.fl, b)
      && t.fl[Spot(h.fl, b)] == h.fl[Spot(h.fl, b)]
      && forall a :: a in t.live ==> a in h.blocks && a in t.blocks && t.blocks[a] == h.blocks[a])
  {
    OffList(h, b, 0);
    Positive(h, {}, b);
    var j := Spot(h.fl, b);
    InsertKeeps(h, b, j);
    PutAt(h.fl, j, b, j);
    PutAt(h.fl, j, b, j + 1);
    var t := Insert(h, b, j);
    MergeUpKeeps(t, j);
    var u := MergeUp(t, j);
    MergeDownKeeps(u, j);
    LiveSame(h, t, u, MergeDown(u, j), j);
  }

  /** After free, some block of the list is at least as large as the one freed. */
  lemma PutBackHolds(h: Heap, b: nat) returns (k: nat)
    requires Inv(h) && b in h.live
    ensures h.fl[0] < b && b in h.blocks
    ensures (var v := PutBack(h, b); 0 < k < |v.fl| && v.fl[k] in v.size && v.size[v.fl[k]] >= h.blocks[b])
  {
    OffList(h, b, 0);
    Positive(h, {}, b);
    var j := Spot(h.fl, b);
    InsertKeeps(h, b, j);
    PutAt(h.fl, j, b, j);
    PutAt(h.fl, j, b, j + 1);
    var t := Insert(h, b, j);
    MergeUpKeeps(t, j);
    var u := MergeUp(t, j);
    Positive(u, {j}, b);
    MergeDownKeeps(u, j);
    hide Inv, InvBut, Put, Spot;
    if j > 0 && u.fl[j] + u.blocks[u.fl[j]] == b {
      CutAt(u.fl, j + 1, j);
      k := j;
    } else {
      k := j + 1;
    }
  }

  lemma LiveSame(h: Heap, t: Heap, u: Heap, v: Heap, j: nat)
    requires Inv(h) && t.blocks == h.blocks && t.live <= h.live && InvBut(t, {j, j + 1}) && j + 1 < |t.fl|
    requires t.fl[j + 1] in t.blocks && (j + 2 < |t.fl| ==> t.fl[j + 2] in t.blocks && t.fl[j + 2] in t.ptr)
    requires u == MergeUp(t, j) && InvBut(u, {j})
    requires j + 1 < |u.fl| && u.fl[j + 1] in u.blocks && u.fl[j + 1] in u.ptr && (j > 0 ==> u.fl[j] in u.blocks)
    requires v == MergeDown(u, j)
    ensures forall a :: a in v.live ==> a in h.blocks && a in v.blocks && v.blocks[a] == h.blocks[a]
  {
    hide ListOk, Tiled, Cut;
    forall a | a in v.live ensures a in h.blocks && a in v.blocks && v.blocks[a] == h.blocks[a] {
      assert a in t.live && a in t.blocks && t.fl[j + 1] !in t.live && (j + 2 < |t.fl| ==> t.fl[j + 2] !in t.live);
      assert a in u.live && u.fl[j + 1] !in u.live && (j > 0 ==> u.fl[j] !in u.live);
    }
  }

  // ---- sbrk ----

  /** New memory is a live block of its own until it is freed onto the list. */
  ghost function Obtain(h: Heap, a: nat, n: nat): Heap {
    Heap(h.ptr, h.size[a := n], h.fl, h.live + {a}, h.blocks[a := n], h.mem + Span(a, n))
  }

  ghost predicate Fresh(mem: iset<nat>, a: nat, n: nat) {
    a > BASE && n > 0 && forall u: nat :: Inside(u, a, n) ==> u !in mem
  }

  lemma ObtainKeeps(h: Heap, a: nat, n: nat)
    requires Inv(h) && Fresh(h.mem, a, n)
    ensures a !in h.blocks && Inv(Obtain(h, a, n))
  {
    GrowTiled(h.blocks, h.mem, a, n);
    var t := Obtain(h, a, n);
    hide Tiled;
    forall i: nat | i + 1 < |t.fl| ensures GapOr(t.fl, t.size, i, {}) {
      assert GapOr(h.fl, h.size, i, {});
      assert i > 0 ==> h.fl[i] in h.blocks;
    }
    forall i: nat | 0 < i < |t.fl| ensures SizeAt(t.size, t.fl[i]) && t.fl[i] in t.blocks && t.fl[i] !in t.live {
      assert SizeAt(h.size, h.fl[i]) && h.fl[i] in h.blocks;
    }
  }

  // ---- free undoes malloc ----

  lemma SpotIs(t: Heap, c: nat, i: nat)
    requires Inv(t) && c in t.live && i < |t.fl| && t.fl[0] < c && t.fl[i] < c && (i + 1 < |t.fl| ==> c < t.fl[i + 1])
    ensures Spot(t.fl, c) == i
  {
    var j := Spot(t.fl, c);
    if i < j {
      Ordered(t.fl, t.size, {}, i, j);
      if i + 1 < j { Ordered(t.fl, t.size, {}, i + 1, j); }
    } else if j < i {
      Ordered(t.fl, t.size, {}, j, i);
      if j + 1 < i { Ordered(t.fl, t.size, {}, j + 1, i); }
    }
  }

  lemma CutPut(fl: seq<nat>, i: nat, c: nat)
    requires i < |fl|
    ensures Cut(Put(fl, i, c), i + 1) == fl
    ensures i > 0 ==> Put(Cut(fl, i), i - 1, fl[i]) == fl
  {}

  /** Freed next to a block below that it touches and one above that it does not. */
  lemma PutBackLow(t: Heap, c: nat, i: nat)
    requires Inv(t) && c in t.live && 0 < i < |t.fl| && t.fl[0] < c && i == Spot(t.fl, c) && t.fl[i] in t.blocks
    requires c in t.blocks
    requires t.fl[i] + t.blocks[t.fl[i]] == c && (i + 1 < |t.fl| ==> c + t.blocks[c] != t.fl[i + 1])
    ensures var u := PutBack(t, c);
            u.fl == t.fl && u.blocks == JoinBlocks(t.blocks, t.fl[i], c) && u.live == t.live - {c} && u.mem == t.mem
  {
    hide Inv, InvBut, Put, Cut, Spot, JoinBlocks;
    InsertKeeps(t, c, i);
    PutAt(t.fl, i, c, i);
    PutAt(t.fl, i, c, i + 1);
    if i + 1 < |t.fl| { PutAt(t.fl, i, c, i + 2); }
    CutPut(t.fl, i, c);
    MergeUpKeeps(Insert(t, c, i), i);
    MergeDownKeeps(Insert(t, c, i), i);
  }

  /** Freed between two blocks that it does not touch. */
  lemma PutBackAlone(t: Heap, c: nat, i: nat)
    requires Inv(t) && c in t.live && i < |t.fl| && t.fl[0] < c && i == Spot(t.fl, c) && c in t.blocks
    requires (i > 0 ==> t.fl[i] in t.blocks && t.fl[i] + t.blocks[t.fl[i]] != c)
    requires (i + 1 < |t.fl| ==> c + t.blocks[c] != t.fl[i + 1])
    ensures var u := PutBack(t, c);
            u.fl == Put(t.fl, i, c) && u.blocks == t.blocks && u.live == t.live - {c} && u.mem == t.mem
  {
    hide Inv, InvBut, Put, Cut, Spot, JoinBlocks;
    InsertKeeps(t, c, i);
    PutAt(t.fl, i, c, i);
    PutAt(t.fl, i, c, i + 1);
    if i + 1 < |t.fl| { PutAt(t.fl, i, c, i + 2); }
    MergeUpKeeps(Insert(t, c, i), i);
    MergeDownKeeps(Insert(t, c, i), i);
  }

  /** A block of the list: its size, and the gaps to its neighbours. */
  lemma Neighbours(h: Heap, i: nat)
    requires Inv(h) && 0 < i < |h.fl|
    ensures h.fl[i] in h.blocks && h.fl[i] !in h.live && h.blocks[h.fl[i]] > 0 && h.fl[0] < h.fl[i]
    ensures h.fl[i - 1] < h.fl[i]
    ensures (i > 1 ==> h.fl[i - 1] in h.blocks && h.fl[i - 1] + h.blocks[h.fl[i - 1]] < h.fl[i])
    ensures i + 1 < |h.fl| ==> h.fl[i] + h.blocks[h.fl[i]] < h.fl[i + 1]
    ensures forall a :: a in h.live ==> a in h.blocks
  {
    Positive(h, {}, h.fl[i]);
    if i > 1 { Positive(h, {}, h.fl[i - 1]); }
    Ordered(h.fl, h.size, {}, i - 1, i);
    Ordered(h.fl, h.size, {}, 0, i);
    if i + 1 < |h.fl| { Ordered(h.fl, h.size, {}, i, i + 1); }
  }

  /** Freeing block c from t gives the free list and the blocks of h back. */
  ghost predicate Undone(h: Heap, t: Heap, c: nat) {
    && Inv(t) && c in t.live && t.fl[0] < c
    && (var u := PutBack(t, c); u.fl == h.fl && u.blocks == h.blocks && u.live == h.live && u.mem == h.mem)
  }

  lemma UndoTail(h: Heap, i: nat, n: nat)
    requires Inv(h) && 0 < i < |h.fl| && h.fl[i] in h.blocks && 0 < n < h.blocks[h.fl[i]]
    ensures Undone(h, TakeTail(h, i, n), h.fl[i] + (h.blocks[h.fl[i]] - n))
  {
    hide Inv, PutBack;
    var a, c, t := h.fl[i], h.fl[i] + (h.blocks[h.fl[i]] - n), TakeTail(h, i, n);
    TakeTailKeeps(h, i, n);
    Neighbours(h, i);
    SpotIs(t, c, i);
    PutBackLow(t, c, i);
    assert JoinBlocks(SplitBlock(h.blocks, a, n), a, c) == h.blocks;
    assert h.live + {c} - {c} == h.live;
  }

  lemma UndoWhole(h: Heap, i: nat)
    requires Inv(h) && 0 < i < |h.fl|
    ensures LinkAt(h.ptr, h.fl, i) && Undone(h, TakeWhole(h, i), h.fl[i])
  {
    hide Inv, PutBack, Cut, Put;
    TakeWholeKeeps(h, i);
    var a, t := h.fl[i], TakeWhole(h, i);
    Neighbours(h, i);
    CutAt(h.fl, i, i - 1);
    CutAt(h.fl, i, 0);
    if i + 1 < |h.fl| { CutAt(h.fl, i, i); }
    CutPut(h.fl, i, a);
    SpotIs(t, a, i - 1);
    PutBackAlone(t, a, i - 1);
    assert h.live + {a} - {a} == h.live;
  }

  // ---- the live blocks determine the free list ----

  /** The same memory obtained, and the same blocks handed out of it. */
  ghost predicate SameLive(h: Heap, t: Heap) {
    h.mem == t.mem && h.live == t.live && forall a :: a in h.live ==>
      a in h.blocks && a in t.blocks && h.blocks[a] == t.blocks[a]
  }

  /** Unit u is in the free block at a. */
  ghost predicate FreeIn(h: Heap, a: nat, u: nat) { a in h.blocks && a !in h.live && Inside(u, a, h.blocks[a]) }

  lemma FreeAgain(h: Heap, t: Heap, a: nat, u: nat) returns (b: nat)
    requires Inv(h) && Inv(t) && SameLive(h, t) && FreeIn(h, a, u)
    ensures FreeIn(t, b, u)
  {
    hide ListOk;
    assert Covered(h.blocks, u);
    b :| b in t.blocks && Inside(u, b, t.blocks[b]);
    assert b in h.blocks ==> Clear(h.blocks, a, b) && Clear(h.blocks, b, a);
  }

  lemma FreeApart(h: Heap, a: nat, b: nat)
    requires Inv(h) && a in h.blocks && b in h.blocks && a !in h.live && b !in h.live
    ensures a + h.blocks[a] != b
  {
    var i :| 0 <= i < |h.fl| && h.fl[i] == a;
    var j :| 0 <= j < |h.fl| && h.fl[j] == b;
    if i < j {
      assert GapOr(h.fl, h.size, i, {});
      if i + 1 < j { Ordered(h.fl, h.size, {}, i + 1, j); }
    } else if j < i {
      Ordered(h.fl, h.size, {}, j, i);
    }
  }

  /** A free block of one heap is one of the other. */
  lemma FreeStarts(h: Heap, t: Heap, a: nat)
    requires Inv(h) && Inv(t) && SameLive(h, t) && a in h.blocks && a !in h.live
    ensures a in t.blocks && a !in t.live
  {
    assert Tiled(h.blocks, h.mem) && h.blocks[a] > 0;
    var b := FreeAgain(h, t, a, a);
    if b < a {
      assert FreeIn(t, b, a - 1);
      var c := FreeAgain(t, h, b, a - 1);
      assert Clear(h.blocks, c, a);
      FreeApart(h, c, a);
    }
  }

  lemma FreeEnds(h: Heap, t: Heap, a: nat)
    requires Inv(h) && Inv(t) && SameLive(h, t) && a in h.blocks && a in t.blocks && a !in h.live
    ensures h.blocks[a] >= t.blocks[a]
  {
    var u := a + h.blocks[a];
    if h.blocks[a] < t.blocks[a] {
      assert Tiled(h.blocks, h.mem) && h.blocks[a] > 0;
      assert FreeIn(t, a, u);
      var c := FreeAgain(t, h, a, u);
      assert Clear(h.blocks, a, c) && Clear(h.blocks, c, a);
      FreeApart(h, a, c);
    }
  }

  lemma SameBlocks(h: Heap, t: Heap, a: nat)
    requires Inv(h) && Inv(t) && SameLive(h, t) && SameLive(t, h) && a in h.blocks
    ensures a in t.blocks && t.blocks[a] == h.blocks[a]
  {
    if a !in h.live {
      hide Inv;
      FreeStarts(h, t, a);
      FreeEnds(h, t, a);
      FreeEnds(t, h, a);
    }
  }

  /** Free memory is always fully merged: what is handed out determines every free block and the list
      of them. */
  lemma LiveDeterminesList(h: Heap, t: Heap)
    requires Inv(h) && Inv(t) && SameLive(h, t)
    ensures h.blocks == t.blocks && h.fl == t.fl
  {
    forall a | a in h.blocks ensures a in t.blocks && t.blocks[a] == h.blocks[a] { SameBlocks(h, t, a); }
    forall a | a in t.blocks ensures a in h.blocks { SameBlocks(t, h, a); }
    assert h.blocks == t.blocks;
    forall i: nat | i < |h.fl| ensures h.fl[i] in t.fl { Listed(h, t, i); }
    forall i: nat | i < |t.fl| ensures t.fl[i] in h.fl { Listed(t, h, i); }
    Rising(h);
    Rising(t);
    SameRising(h.fl, t.fl);
  }

  lemma Listed(h: Heap, t: Heap, i: nat)
    requires Inv(h) && Inv(t) && h.live == t.live && h.blocks == t.blocks && i < |h.fl|
    ensures h.fl[i] in t.fl
  {
    if i == 0 { assert t.fl[0] == BASE; }
  }

  predicate Increasing(s: seq<nat>) { forall i, j :: 0 <= i < j < |s| ==> s[i] < s[j] }

  lemma Rising(h: Heap)
    requires Inv(h)
    ensures Increasing(h.fl)
  {
    forall i, j | 0 <= i < j < |h.fl| ensures h.fl[i] < h.fl[j] { Ordered(h.fl, h.size, {}, i, j); }
  }

  predicate Among(a: seq<nat>, b: seq<nat>) { forall i :: 0 <= i < |a| ==> a[i] in b }

  lemma LastBelow(a: seq<nat>, b: seq<nat>)
    requires Increasing(b) && Among(a, b) && a != []
    ensures b != [] && a[|a| - 1] <= b[|b| - 1]
  {
    assert a[|a| - 1] in b;
  }

  lemma FrontAmong(a: seq<nat>, b: seq<nat>)
    requires Increasing(a) && Among(a, b) && a != [] && b != [] && a[|a| - 1] == b[|b| - 1]
    ensures Among(a[..|a| - 1], b[..|b| - 1])
  {
    var x, y := a[..|a| - 1], b[..|b| - 1];
    forall i | 0 <= i < |x| ensures x[i] in y {
      assert a[i] in b;
      var j :| 0 <= j < |b| && b[j] == a[i];
      assert a[i] < a[|a| - 1];
      assert y[j] == x[i];
    }
  }

  lemma {:induction false} SameRising(a: seq<nat>, b: seq<nat>)
    requires Increasing(a) && Increasing(b) && Among(a, b) && Among(b, a)
    ensures a == b
    decreases |a|
  {
    if a != [] || b != [] {
      hide Among;
      if a != [] { LastBelow(a, b); }
      if b != [] { LastBelow(b, a); }
      FrontAmong(a, b);
      FrontAmong(b, a);
      SameRising(a[..|a| - 1], b[..|b| - 1]);
      assert a == a[..|a| - 1] + [a[|a| - 1]] && b == b[..|b| - 1] + [b[|b| - 1]];
    }
  }
}
