/** What every run of the buddy allocator keeps, and what one call undoes. */
module BuddyTheory {
  import opened Ring
  import opened BuddySpec

  // ---- geometry of blocks ----

  /** The block d sizes up that contains block i. */
  function Anc(i: nat, d: nat): nat
    decreases d
  {
    if d == 0 then i else Anc(i / 2, d - 1)
  }

  /** Block (k, i) lies inside block (K, I). */
  ghost predicate Under(k: nat, i: nat, K: nat, I: nat) {
    k <= K && Anc(i, K - k) == I
  }

  ghost predicate Overlap(k: nat, i: nat, K: nat, I: nat) {
    Under(k, i, K, I) || Under(K, I, k, i)
  }

  lemma {:induction false} AncStep(i: nat, d: nat)
    ensures Anc(i, d + 1) == Anc(i, d) / 2
    decreases d
  {
    if d > 0 {
      AncStep(i / 2, d - 1);
    }
  }

  lemma {:induction false} AncIsBlock(s: State, k: nat, i: nat, d: nat)
    requires Shape(s) && IsBlock(s, k, i) && k + d <= s.Max()
    ensures IsBlock(s, k + d, Anc(i, d))
    decreases d
  {
    if d > 0 {
      BuddyIsBlock(s, k, i);
      AncIsBlock(s, k + 1, i / 2, d - 1);
    }
  }

  /** Everything above a block in use is split. */
  lemma {:induction false} AncestorsSplit(s: State, k: nat, i: nat, d: nat)
    requires Inv(s) && IsBlock(s, k, i) && s.alloc[k][i] && k + d <= s.Max()
    ensures IsBlock(s, k + d, Anc(i, d)) && s.alloc[k + d][Anc(i, d)]
    ensures d > 0 ==> s.split[k + d][Anc(i, d)]
    decreases d
  {
    if d > 0 {
      ParentSplit(s, k, i);
      AncestorsSplit(s, k + 1, i / 2, d - 1);
    }
  }

  lemma {:induction false} TileAncestorsSplit(s: State, k: nat, i: nat, d: nat)
    requires Inv(s) && IsTile(s, k, i) && d > 0 && k + d <= s.Max()
    ensures IsBlock(s, k + d, Anc(i, d)) && s.split[k + d][Anc(i, d)]
  {
    if IsLive(s, k, i) {
      AncestorsSplit(s, k, i, d);
    } else {
      assert OnlyBuddyUsed(s, k, i);
      BuddyIsBlock(s, k, i);
      AncestorsSplit(s, k, BuddyOf(i), d);
      assert Anc(BuddyOf(i), d) == Anc(i, d);
    }
  }

  lemma TileIsWhole(s: State, k: nat, i: nat)
    requires Inv(s) && IsTile(s, k, i)
    ensures IsBlock(s, k, i) && !s.split[k][i]
  {
    if IsFree(s, k, i) {
      assert OnlyBuddyUsed(s, k, i);
    }
  }

  /** Live, free and reserved blocks never overlap. */
  lemma TilesApart(s: State, k: nat, i: nat, K: nat, I: nat)
    requires Inv(s) && IsTile(s, k, i) && IsTile(s, K, I) && Overlap(k, i, K, I)
    ensures k == K && i == I
  {
    TileIsWhole(s, k, i);
    TileIsWhole(s, K, I);
    if k < K {
      TileAncestorsSplit(s, k, i, K - k);
    } else if K < k {
      TileAncestorsSplit(s, K, I, k - K);
    }
  }

  /** Every leaf of the heap lies in a live, free or reserved block. */
  lemma {:induction false} TilesCover(s: State, x: nat, d: nat)
    requires Inv(s) && IsBlock(s, 0, x) && d <= s.Max()
    requires IsBlock(s, d, Anc(x, d)) && s.alloc[d][Anc(x, d)]
    ensures exists k: nat :: k <= d && IsTile(s, k, Anc(x, k))
    decreases d
  {
    var j := Anc(x, d);
    if !s.split[d][j] {
      assert IsTile(s, d, j);
    } else {
      assert d > 0;
      AncStep(x, d - 1);
      AncIsBlock(s, 0, x, d - 1);
      var c := Anc(x, d - 1);
      if s.alloc[d - 1][c] {
        TilesCover(s, x, d - 1);
        var k: nat :| k <= d - 1 && IsTile(s, k, Anc(x, k));
        assert k <= d;
      } else {
        assert SplitAt(s, d, j);
        assert OnlyBuddyUsed(s, d - 1, c);
        assert IsTile(s, d - 1, Anc(x, d - 1));
      }
    }
  }

  /** Tiling: every leaf is in exactly one live, free or reserved block. */
  lemma TilesPartition(s: State, x: nat)
    requires Inv(s) && IsBlock(s, 0, x)
    ensures exists k: nat :: k <= s.Max() && IsTile(s, k, Anc(x, k))
    ensures forall k: nat, k': nat :: IsTile(s, k, Anc(x, k)) && IsTile(s, k', Anc(x, k')) ==> k == k'
  {
    AncIsBlock(s, 0, x, s.Max());
    TilesCover(s, x, s.Max());
    forall k: nat, k': nat | IsTile(s, k, Anc(x, k)) && IsTile(s, k', Anc(x, k'))
      ensures k == k'
    {
      AncComp(x, k, k');
      AncComp(x, k', k);
      TilesApart(s, k, Anc(x, k), k', Anc(x, k'));
    }
  }

  lemma {:induction false} AncComp(x: nat, k: nat, k': nat)
    ensures k <= k' ==> Anc(Anc(x, k), k' - k) == Anc(x, k')
    decreases k
  {
    if k > 0 && k <= k' {
      AncComp(x / 2, k - 1, k' - 1);
    }
  }

  // ---- what one call does to the live blocks ----

  ghost predicate LiveAdds(s: State, s': State, k: nat, i: nat) {
    forall a, b :: IsLive(s', a, b) <==> IsLive(s, a, b) || (a == k && b == i)
  }

  ghost predicate LiveMoves(s: State, s': State, k: nat, i: nat, k': nat, i': nat) {
    forall a, b :: IsLive(s', a, b) <==> (IsLive(s, a, b) && !(a == k && b == i)) || (a == k' && b == i')
  }

  ghost predicate LiveDrops(s: State, s': State, k: nat, i: nat) {
    forall a, b :: IsLive(s', a, b) <==> IsLive(s, a, b) && !(a == k && b == i)
  }

  lemma TakeFrontLive(s: State, k: nat)
    requires Inv(s) && k < s.Max() && s.free[k] != [] && OnlyBuddyUsed(s, k, s.free[k][0])
    ensures LiveAdds(s, TakeFront(s, k), k, s.free[k][0])
  {}

  lemma SplitOnceLive(s: State, k: nat, i: nat)
    requires Inv(s) && 1 <= k && IsLive(s, k, i)
    ensures LiveMoves(s, SplitOnce(s, k, i), k, i, k - 1, 2 * i)
  {
    SplitOnceKeeps(s, k, i);
  }

  lemma MergeLive(s: State, k: nat, i: nat)
    requires Inv(s) && IsLive(s, k, i) && i > 0 && k < s.Max() && BuddyOf(i) in s.free[k]
    ensures LiveMoves(s, Merge(s, k, i), k, i, k + 1, i / 2)
  {
    assert OnlyBuddyUsed(s, k, BuddyOf(i));
    BuddyIsBlock(s, k, i);
    ParentSplit(s, k, i);
  }

  lemma {:induction false} DescendSpec(s: State, k: nat, i: nat, fk: nat)
    requires Inv(s) && fk <= k && IsLive(s, k, i) && i > 0
    ensures var (r, j) := Descend(s, k, i, fk); Inv(r) && j > 0 && LiveMoves(s, r, k, i, fk, j)
    decreases k
  {
    if k > fk {
      SplitOnceKeeps(s, k, i);
      SplitOnceLive(s, k, i);
      DescendSpec(SplitOnce(s, k, i), k - 1, 2 * i, fk);
    }
  }

  /** A successful bd_malloc keeps the invariant and adds exactly one live block, of the size
      asked for, that overlaps no block that was live. */
  lemma MallocSpec(s: State, fk: nat)
    requires Inv(s)
    ensures Malloc(s, fk).Got? ==>
              var r := Malloc(s, fk);
              && Inv(r.s) && r.i > 0 && IsLive(r.s, fk, r.i) && !IsLive(s, fk, r.i) && LiveAdds(s, r.s, fk, r.i)
              && (forall k: nat, i: nat :: IsLive(s, k, i) ==> !Overlap(k, i, fk, r.i))
  {
    if fk < |s.free| {
      var k := FindFree(s, fk);
      if k < |s.free| {
        TakeFrontKeeps(s, k);
        var p := s.free[k][0];
        TakeFrontLive(s, k);
        var t := TakeFront(s, k);
        DescendSpec(t, k, p, fk);
        var (r, j) := Descend(t, k, p, fk);
        assert !IsLive(s, k, p);
        assert Malloc(s, fk) == Got(r, j);
        if IsLive(s, fk, j) {
          DescendUnder(t, k, p, fk);
          TilesApart(t, fk, j, k, p);
          assert false;
        }
        forall a: nat, b: nat | IsLive(s, a, b)
          ensures !Overlap(a, b, fk, j)
        {
          assert IsTile(r, a, b);
          if Overlap(a, b, fk, j) {
            TilesApart(r, a, b, fk, j);
          }
        }
      }
    }
  }

  lemma {:induction false} DescendUnder(s: State, k: nat, i: nat, fk: nat)
    requires Inv(s) && fk <= k && IsLive(s, k, i)
    ensures Under(fk, Descend(s, k, i, fk).1, k, i)
    decreases k
  {
    if k > fk {
      SplitOnceKeeps(s, k, i);
      DescendUnder(SplitOnce(s, k, i), k - 1, 2 * i, fk);
      AncStep(Descend(s, k, i, fk).1, k - 1 - fk);
    }
  }

  /** Splitting from size k to fk: of every block on the way the left half is kept and the right half
      becomes the first of its free list. */
  lemma {:induction false} DescendLists(s: State, k: nat, i: nat, fk: nat)
    requires Shape(s) && fk <= k && IsBlock(s, k, i)
    ensures var (r, j) := Descend(s, k, i, fk);
            && |r.free| == |s.free| && Anc(j, k - fk) == i
            && (forall a: nat :: a < |s.free| && (a < fk || k <= a) ==> r.free[a] == s.free[a])
            && (forall a: nat :: fk <= a < k ==> SplitOff(s.free[a], r.free[a], Anc(j, a - fk)))
    decreases k
  {
    if k > fk {
      var t, j := SplitOnce(s, k, i), Descend(s, k, i, fk).1;
      DescendLists(t, k - 1, 2 * i, fk);
      AncStep(j, k - 1 - fk);
      forall a: nat | fk <= a < k
        ensures SplitOff(s.free[a], Descend(s, k, i, fk).0.free[a], Anc(j, a - fk))
      {
        assert a < k - 1 ==> t.free[a] == s.free[a];
      }
    }
  }

  /** Block i is a left half, and its right half has been put in front of the list. */
  ghost predicate SplitOff(before: seq<nat>, after: seq<nat>, i: nat) {
    i % 2 == 0 && after == [i + 1] + before
  }

  /** Best fit: a block handed out comes from the first free block of the smallest size that has one,
      and is the first of its size in there. The right halves split off on the way are all that their
      lists hold; every other free list is as it was. */
  lemma MallocFits(s: State, fk: nat) returns (K: nat)
    requires Inv(s) && Malloc(s, fk).Got?
    ensures fk <= K <= s.Max() && (forall k: nat, i: nat :: fk <= k < K ==> !IsFree(s, k, i)) && s.free[K] != []
    ensures var r := Malloc(s, fk);
            && |r.s.free| == |s.free| && Under(fk, r.i, K, s.free[K][0]) && r.s.free[K] == s.free[K][1..]
            && (forall k: nat :: k < |s.free| && (k < fk || K < k) ==> r.s.free[k] == s.free[k])
            && (forall k: nat :: fk <= k < K ==> SplitOff([], r.s.free[k], Anc(r.i, k - fk)))
  {
    K := FindFree(s, fk);
    var top := s.free[K][0];
    assert top in s.free[K];
    TakeFrontKeeps(s, K);
    var t, r := TakeFront(s, K), Malloc(s, fk);
    DescendLists(t, K, top, fk);
    forall k: nat | fk <= k < K
      ensures SplitOff([], r.s.free[k], Anc(r.i, k - fk))
    {
      assert SplitOff(t.free[k], r.s.free[k], Anc(r.i, k - fk)) && s.free[k] == [];
    }
  }

  /** One turn of bd_free's loop: it ends, or takes the buddy off its list. */
  lemma ReleaseEnds(s: State, k: nat, i: nat)
    requires Inv(s) && IsLive(s, k, i) && i > 0 && k < s.Max() && IsBlock(s, k, BuddyOf(i)) && s.alloc[k][BuddyOf(i)]
    ensures Release(s, k, i).free == s.free[k := [i] + s.free[k]] && !IsFree(s, k, BuddyOf(i))
  {
    assert BuddyOf(i) in s.free[k] <==> OnlyBuddyUsed(s, k, BuddyOf(i));
  }

  lemma ReleaseMerges(s: State, k: nat, i: nat)
    requires Inv(s) && IsLive(s, k, i) && i > 0 && k < s.Max() && IsBlock(s, k, BuddyOf(i)) && !s.alloc[k][BuddyOf(i)]
    ensures var t := Merge(s, k, i);
            && Inv(t) && IsLive(t, k + 1, i / 2) && i / 2 > 0 && Release(s, k, i) == Release(t, k + 1, i / 2)
            && t.Max() == s.Max() && |t.alloc| == |s.alloc| && |t.free| == |s.free|
            && TakenOff(s.free[k], t.free[k], BuddyOf(i))
            && forall a: nat :: a < |s.free| && a != k ==> t.free[a] == s.free[a]
  {
    MergeKeeps(s, k, i);
    WithoutTakesOff(s.free[k], BuddyOf(i));
    hide TakenOff, Without;
  }

  /** bd_free: the freed block takes its buddies off their lists as long as they are free, and the block
      they make up goes to the front of its list. */
  lemma {:induction false} ReleaseLists(s: State, k: nat, i: nat) returns (K: nat)
    requires Inv(s) && IsLive(s, k, i) && i > 0
    ensures k <= K < s.Max() && |Release(s, k, i).free| == |s.free| && !IsFree(s, K, BuddyOf(Anc(i, K - k)))
    ensures var r := Release(s, k, i);
            && r.free[K] == [Anc(i, K - k)] + s.free[K]
            && (forall a: nat :: k <= a < K ==> TakenOff(s.free[a], r.free[a], BuddyOf(Anc(i, a - k))))
            && (forall a: nat :: a < |s.free| && (a < k || K < a) ==> r.free[a] == s.free[a])
    decreases |s.alloc| - k
  {
    assert k < s.Max() < |s.free|;
    BuddyIsBlock(s, k, i);
    hide Inv, IsLive, Release, Merge, TakenOff, BuddyOf;
    if s.alloc[k][BuddyOf(i)] {
      K := k;
      ReleaseEnds(s, k, i);
    } else {
      var t := Merge(s, k, i);
      ReleaseMerges(s, k, i);
      K := ReleaseLists(t, k + 1, i / 2);
      var r := Release(s, k, i);
      forall a: nat | k < a < K ensures TakenOff(s.free[a], r.free[a], BuddyOf(Anc(i, a - k))) {
        assert TakenOff(t.free[a], r.free[a], BuddyOf(Anc(i / 2, a - k - 1)));
      }
      assert Anc(i, K - k) == Anc(i / 2, K - k - 1);
    }
  }

  lemma WithoutTakesOff(q: seq<nat>, x: nat)
    requires x in q
    ensures TakenOff(q, Without(q, x), x)
  {}

  /** The list without its one occurrence of i. */
  ghost predicate TakenOff(before: seq<nat>, after: seq<nat>, i: nat) {
    exists n: nat :: n < |before| && before[n] == i && after == before[..n] + before[n + 1..]
  }

  /** bd_free keeps the invariant and removes exactly the released block. */
  lemma {:induction false} ReleaseSpec(s: State, k: nat, i: nat)
    requires Inv(s) && IsLive(s, k, i) && i > 0
    ensures Inv(Release(s, k, i)) && LiveDrops(s, Release(s, k, i), k, i)
    decreases |s.alloc| - k
  {
    BuddyIsBlock(s, k, i);
    if s.alloc[k][BuddyOf(i)] {
      ReleaseLast(s, k, i);
    } else {
      MergeKeeps(s, k, i);
      MergeLive(s, k, i);
      ReleaseSpec(Merge(s, k, i), k + 1, i / 2);
      ParentSplit(s, k, i);
    }
  }

  lemma ReleaseLast(s: State, k: nat, i: nat)
    requires Inv(s) && IsLive(s, k, i) && i > 0 && k < s.Max() && IsBlock(s, k, BuddyOf(i)) && s.alloc[k][BuddyOf(i)]
    ensures var r := PushFree(ClearAlloc(s, k, i), k, i); Inv(r) && LiveDrops(s, r, k, i)
  {
    var r := PushFree(ClearAlloc(s, k, i), k, i);
    assert !OnlyBuddyUsed(s, k, i);
    ReleaseLastSplits(s, k, i);
    forall k': nat, j: nat | k' < r.Max()
      ensures j in r.free[k'] <==> OnlyBuddyUsed(r, k', j)
    {
      assert j in s.free[k'] <==> OnlyBuddyUsed(s, k', j);
      if k' == k {
        assert BuddyOf(j) == i <==> j == BuddyOf(i);
      }
    }
  }

  lemma ReleaseLastSplits(s: State, k: nat, i: nat)
    requires Inv(s) && IsLive(s, k, i) && i > 0 && k < s.Max() && IsBlock(s, k, BuddyOf(i)) && s.alloc[k][BuddyOf(i)]
    ensures SplitsAgree(PushFree(ClearAlloc(s, k, i), k, i))
  {
    var r := PushFree(ClearAlloc(s, k, i), k, i);
    forall k', j | 1 <= k' <= r.Max() && 0 <= j < |r.split[k']|
      ensures SplitAt(r, k', j)
    {
      assert SplitAt(s, k', j);
      if k' - 1 == k && (2 * j == i || 2 * j + 1 == i) {
        assert BuddyOf(i) == 2 * j || BuddyOf(i) == 2 * j + 1;
      }
    }
  }

  // ---- undo ----

  lemma {:induction false} ReleaseAfterDescend(s: State, k: nat, i: nat, fk: nat)
    requires Inv(s) && fk <= k && IsLive(s, k, i) && i > 0
    ensures var (r, j) := Descend(s, k, i, fk);
            Inv(r) && IsLive(r, fk, j) && j > 0 && Release(r, fk, j) == Release(s, k, i)
    decreases k
  {
    if k > fk {
      var t := SplitOnce(s, k, i);
      SplitOnceKeeps(s, k, i);
      ReleaseAfterDescend(t, k - 1, 2 * i, fk);
      MergeAfterSplit(s, k, i);
      assert Release(t, k - 1, 2 * i) == Release(Merge(t, k - 1, 2 * i), k, i);
    }
  }

  lemma MergeAfterSplit(s: State, k: nat, i: nat)
    requires Inv(s) && 1 <= k && IsLive(s, k, i) && i > 0
    ensures var t := SplitOnce(s, k, i);
            && Inv(t) && IsLive(t, k - 1, 2 * i) && IsBlock(t, k - 1, 2 * i + 1) && !t.alloc[k - 1][2 * i + 1]
            && 2 * i + 1 in t.free[k - 1] && Merge(t, k - 1, 2 * i) == s
  {
    var t := SplitOnce(s, k, i);
    SplitOnceKeeps(s, k, i);
    MergeKeeps(t, k - 1, 2 * i);
    var m := Merge(t, k - 1, 2 * i);
    assert m.alloc[k - 1] == s.alloc[k - 1];
    assert m.split[k] == s.split[k];
    assert Without(t.free[k - 1], 2 * i + 1) == s.free[k - 1];
    assert m.alloc == s.alloc && m.split == s.split && m.free == s.free;
  }

  /** bd_free right after bd_malloc restores both bitmaps and every free list, order included. */
  lemma MallocThenFree(s: State, fk: nat)
    requires Inv(s) && Malloc(s, fk).Got?
    ensures var r := Malloc(s, fk); Inv(r.s) && IsLive(r.s, fk, r.i) && r.i > 0 && Release(r.s, fk, r.i) == s
  {
    var k := FindFree(s, fk);
    var p := s.free[k][0];
    TakeFrontKeeps(s, k);
    var t := TakeFront(s, k);
    ReleaseAfterDescend(t, k, p, fk);
    BuddyIsBlock(s, k, p);
    var u := PushFree(ClearAlloc(t, k, p), k, p);
    assert u.alloc[k] == s.alloc[k] && u.free[k] == s.free[k];
    assert u.alloc == s.alloc && u.free == s.free;
    assert Release(t, k, p) == u;
  }

  // ---- the live blocks determine the bitmaps ----

  ghost predicate SameLive(s: State, t: State) {
    forall k, i :: IsLive(s, k, i) <==> IsLive(t, k, i)
  }

  lemma {:induction false} LiveDeterminesAlloc(s: State, t: State, k: nat)
    requires Inv(s) && Inv(t) && |s.alloc| == |t.alloc| && SameLive(s, t) && k <= s.Max()
    ensures s.alloc[k] == t.alloc[k] && s.split[k] == t.split[k]
    decreases k
  {
    if k > 0 {
      LiveDeterminesAlloc(s, t, k - 1);
    }
    forall i | 0 <= i < |s.alloc[k]|
      ensures s.alloc[k][i] == t.alloc[k][i] && s.split[k][i] == t.split[k][i]
    {
      if k > 0 {
        assert SplitAt(s, k, i);
        assert SplitAt(t, k, i);
      }
      assert IsLive(s, k, i) <==> IsLive(t, k, i);
    }
  }

  /** Whatever the history, the live blocks fix both bitmaps and the contents of every free
      list: releasing everything in any order leaves no fragmentation behind. */
  lemma LiveDeterminesState(s: State, t: State)
    requires Inv(s) && Inv(t) && |s.alloc| == |t.alloc| && SameLive(s, t)
    ensures s.alloc == t.alloc && s.split == t.split
    ensures forall k: nat, i: nat :: k <= s.Max() ==> (i in s.free[k] <==> i in t.free[k])
  {
    forall k: nat | k <= s.Max()
      ensures s.alloc[k] == t.alloc[k] && s.split[k] == t.split[k]
    {
      LiveDeterminesAlloc(s, t, k);
    }
    forall k: nat, i: nat | k <= s.Max()
      ensures i in s.free[k] <==> i in t.free[k]
    {
      if k < s.Max() {
        assert i in s.free[k] <==> OnlyBuddyUsed(s, k, i);
        assert i in t.free[k] <==> OnlyBuddyUsed(t, k, i);
      }
    }
  }

  // ---- failure means there is no room ----

  /** A block in use contains a live block. */
  lemma {:induction false} UsedHasLive(s: State, k: nat, i: nat) returns (a: nat, b: nat)
    requires Inv(s) && IsBlock(s, k, i) && s.alloc[k][i]
    ensures IsLive(s, a, b) && Under(a, b, k, i)
    decreases k
  {
    if !s.split[k][i] {
      a, b := k, i;
    } else {
      assert SplitAt(s, k, i);
      a, b := UsedHasLive(s, k - 1, if s.alloc[k - 1][2 * i] then 2 * i else 2 * i + 1);
      AncStep(b, k - 1 - a);
    }
  }

  /** Above a block that meets no live block there is a free block. */
  lemma {:induction false} RoomIsFree(s: State, k: nat, i: nat) returns (K: nat)
    requires Inv(s) && IsBlock(s, k, i) && k <= s.Max()
    requires forall a: nat, b: nat :: IsLive(s, a, b) ==> !Overlap(a, b, k, i)
    ensures k <= K < |s.free| && s.free[K] != []
    decreases s.Max() - k
  {
    if s.alloc[k][i] {
      var a, b := UsedHasLive(s, k, i);
      assert Overlap(a, b, k, i);
    }
    assert k < s.Max();
    BuddyIsBlock(s, k, i);
    if s.alloc[k][BuddyOf(i)] {
      assert OnlyBuddyUsed(s, k, i);
      K := k;
    } else {
      assert SplitAt(s, k + 1, i / 2);
      assert !s.split[k + 1][i / 2];
      assert Under(k, i, k + 1, i / 2);
      assert !IsLive(s, k + 1, i / 2);
      forall a: nat, b: nat | IsLive(s, a, b)
        ensures !Overlap(a, b, k + 1, i / 2)
      {
        NoLiveUnderClear(s, a, b, k + 1, i / 2);
        assert Under(k + 1, i / 2, a, b) ==> Under(k, i, a, b);
      }
      K := RoomIsFree(s, k + 1, i / 2);
    }
  }

  lemma NoLiveUnderClear(s: State, a: nat, b: nat, k: nat, i: nat)
    requires Inv(s) && IsLive(s, a, b) && IsBlock(s, k, i) && !s.alloc[k][i]
    ensures !Under(a, b, k, i)
  {
    if Under(a, b, k, i) {
      AncestorsSplit(s, a, b, k - a);
    }
  }

  ghost predicate Blocked(s: State, k: nat, i: nat) {
    exists a: nat, b: nat :: IsLive(s, a, b) && Overlap(a, b, k, i)
  }

  /** bd_malloc fails exactly when every aligned block of the size asked for meets a live block. */
  lemma MallocFailsIffNoRoom(s: State, fk: nat)
    requires Inv(s)
    ensures Malloc(s, fk).NoMemory? <==> forall i: nat :: IsBlock(s, fk, i) ==> Blocked(s, fk, i)
  {
    if Malloc(s, fk).Got? {
      MallocSpec(s, fk);
      var r := Malloc(s, fk);
      assert IsBlock(s, fk, r.i) by { MallocKeepsSize(s, fk); }
      assert !Blocked(s, fk, r.i);
    } else {
      forall i: nat | IsBlock(s, fk, i)
        ensures Blocked(s, fk, i)
      {
        if !Blocked(s, fk, i) {
          var K := RoomIsFree(s, fk, i);
          assert false;
        }
      }
    }
  }

  // ---- whole runs ----

  datatype Call = CallMalloc(k: nat) | CallFree(k: nat, i: nat)

  /** One call by a client that only frees what it was given; `held` is what it holds. */
  ghost predicate Step(s: State, held: set<(nat, nat)>, c: Call, s': State, held': set<(nat, nat)>) {
    && Inv(s)
    && match c
       case CallMalloc(k) =>
         if Malloc(s, k).Got? then s' == Malloc(s, k).s && held' == held + {(k, Malloc(s, k).i)}
         else s' == s && held' == held
       case CallFree(k, i) =>
         && (k, i) in held && i > 0 && IsLive(s, k, i)
         && s' == Release(s, k, i) && held' == held - {(k, i)}
  }

  ghost predicate Run(states: seq<State>, helds: seq<set<(nat, nat)>>, calls: seq<Call>) {
    && |states| == |helds| == |calls| + 1
    && forall n :: 0 <= n < |calls| ==> Step(states[n], helds[n], calls[n], states[n + 1], helds[n + 1])
  }

  /** Live blocks are what the client holds together with what was set aside at the start. */
  ghost predicate Accounted(s0: State, s: State, held: set<(nat, nat)>) {
    && (forall k: nat, i: nat :: IsLive(s, k, i) <==> IsLive(s0, k, i) || (k, i) in held)
    && (forall k: nat, i: nat :: (k, i) in held ==> i > 0 && !IsLive(s0, k, i))
  }

  /** Over every run the invariant holds, and the live blocks are exactly the reserved leaves
      and the blocks the client holds. */
  lemma {:induction false} RunKeepsInv(states: seq<State>, helds: seq<set<(nat, nat)>>, calls: seq<Call>, n: nat)
    requires Run(states, helds, calls) && n < |states|
    requires Inv(states[0]) && helds[0] == {}
    ensures Inv(states[n]) && |states[n].alloc| == |states[0].alloc| && Accounted(states[0], states[n], helds[n])
    decreases n
  {
    if n > 0 {
      RunKeepsInv(states, helds, calls, n - 1);
      StepKeeps(states[0], states[n - 1], helds[n - 1], calls[n - 1], states[n], helds[n]);
    }
  }

  /** A run can go on with any malloc, and with freeing anything held: what Step asks of the state
      always holds. */
  lemma RunNeverBlocked(states: seq<State>, helds: seq<set<(nat, nat)>>, calls: seq<Call>, c: Call)
    requires Run(states, helds, calls) && Inv(states[0]) && helds[0] == {}
    requires c.CallFree? ==> (c.k, c.i) in helds[|calls|]
    ensures exists s', held' :: Step(states[|calls|], helds[|calls|], c, s', held')
  {
    RunKeepsInv(states, helds, calls, |calls|);
    var s, held := states[|calls|], helds[|calls|];
    match c
    case CallMalloc(k) =>
      var r := Malloc(s, k);
      var s' := if r.Got? then r.s else s;
      var held' := if r.Got? then held + {(k, r.i)} else held;
      assert Step(s, held, c, s', held');
    case CallFree(k, i) =>
      assert IsLive(s, k, i) && i > 0;
      assert Step(s, held, c, Release(s, k, i), held - {(k, i)});
  }

  lemma StepKeeps(s0: State, s: State, held: set<(nat, nat)>, c: Call, s': State, held': set<(nat, nat)>)
    requires Step(s, held, c, s', held') && Accounted(s0, s, held)
    ensures Inv(s') && |s'.alloc| == |s.alloc| && Accounted(s0, s', held')
  {
    match c
    case CallMalloc(k) =>
      MallocSpec(s, k);
      if Malloc(s, k).Got? {
        MallocKeepsSize(s, k);
      }
    case CallFree(k, i) =>
      ReleaseSpec(s, k, i);
      ReleaseKeepsSize(s, k, i);
  }

  lemma MallocKeepsSize(s: State, fk: nat)
    requires Inv(s) && Malloc(s, fk).Got?
    ensures |Malloc(s, fk).s.alloc| == |s.alloc|
  {
    var k := FindFree(s, fk);
    TakeFrontKeeps(s, k);
    DescendKeepsSize(TakeFront(s, k), k, s.free[k][0], fk);
  }

  lemma {:induction false} DescendKeepsSize(s: State, k: nat, i: nat, fk: nat)
    requires Shape(s) && fk <= k && IsBlock(s, k, i)
    ensures |Descend(s, k, i, fk).0.alloc| == |s.alloc|
    decreases k
  {
    if k > fk {
      DescendKeepsSize(SplitOnce(s, k, i), k - 1, 2 * i, fk);
    }
  }

  lemma {:induction false} ReleaseKeepsSize(s: State, k: nat, i: nat)
    requires Inv(s) && IsLive(s, k, i) && i > 0
    ensures |Release(s, k, i).alloc| == |s.alloc|
    decreases |s.alloc| - k
  {
    BuddyIsBlock(s, k, i);
    if !s.alloc[k][BuddyOf(i)] {
      MergeKeeps(s, k, i);
      ReleaseKeepsSize(Merge(s, k, i), k + 1, i / 2);
    }
  }

  /** A run that ends with nothing held ends with the bitmaps and free lists it started with. */
  lemma FreeingAllRestores(states: seq<State>, helds: seq<set<(nat, nat)>>, calls: seq<Call>)
    requires Run(states, helds, calls) && Inv(states[0]) && helds[0] == {} && helds[|calls|] == {}
    ensures |states[|calls|].free| == |states[0].free|
    ensures states[|calls|].alloc == states[0].alloc && states[|calls|].split == states[0].split
    ensures forall k: nat, i: nat :: k <= states[0].Max() ==> (i in states[|calls|].free[k] <==> i in states[0].free[k])
  {
    RunKeepsInv(states, helds, calls, |calls|);
    LiveDeterminesState(states[|calls|], states[0]);
  }
}
