/** The buddy allocator of kernel/buddy.c as a transition system on values.

    A block is a pair (k, i): the i-th block of size index k. Block (k, i) is made of the two
    halves (k - 1, 2 * i) and (k - 1, 2 * i + 1). The state holds the two bitmaps and the free
    list of every size, exactly as in the source; `free[k]` lists block indices, front first. */
module BuddySpec {
  import opened Ring

  datatype State = State(alloc: seq<seq<bool>>, split: seq<seq<bool>>, free: seq<seq<nat>>) {
    /** MAXSIZE, the index of the largest size. */
    function Max(): int {
      |alloc| - 1
    }
  }

  function BuddyOf(i: nat): nat {
    if i % 2 == 0 then i + 1 else i - 1
  }

  function Pow2(n: nat): (r: nat)
    ensures r >= 1
  {
    if n == 0 then 1 else 2 * Pow2(n - 1)
  }

  /** There are NBLK(k) = 2^(MAXSIZE - k) blocks of size k. */
  ghost predicate Shape(s: State) {
    && |s.alloc| >= 2 && |s.split| == |s.alloc| && |s.free| == |s.alloc|
    && (forall k :: 0 <= k <= s.Max() ==> |s.alloc[k]| == Pow2(s.Max() - k))
    && (forall k :: 0 <= k <= s.Max() ==> |s.split[k]| == Pow2(s.Max() - k))
  }

  ghost predicate IsBlock(s: State, k: int, i: int) {
    0 <= k < |s.alloc| && 0 <= i < |s.alloc[k]|
  }

  ghost predicate SplitAt(s: State, k: int, j: int)
    requires Shape(s) && 1 <= k <= s.Max() && 0 <= j < |s.split[k]|
  {
    s.split[k][j] <==> s.alloc[k - 1][2 * j] || s.alloc[k - 1][2 * j + 1]
  }

  /** A block is split exactly when one of its halves is in use: a pair of free halves has
      always been merged, and no bit is left behind below a block that is whole. */
  ghost predicate SplitsAgree(s: State)
    requires Shape(s)
  {
    && (forall k, j :: 1 <= k <= s.Max() && 0 <= j < |s.split[k]| ==> SplitAt(s, k, j))
    && (forall k, j {:trigger s.split[k][j]} ::
          0 <= k <= s.Max() && 0 <= j < |s.split[k]| && s.split[k][j] ==> s.alloc[k][j])
    && (forall j :: 0 <= j < |s.split[0]| ==> !s.split[0][j])
  }

  ghost predicate OnlyBuddyUsed(s: State, k: nat, i: nat)
    requires Shape(s) && k < s.Max()
  {
    i < |s.alloc[k]| && !s.alloc[k][i] && s.alloc[k][BuddyOf(i)]
  }

  /** Below the top, a block is on its free list exactly when it is clear and its buddy is set. */
  ghost predicate FreeListsAgree(s: State)
    requires Shape(s)
  {
    && (forall k :: 0 <= k <= s.Max() ==> Distinct(s.free[k]))
    && (forall k: nat, i: nat :: k < s.Max() ==> (i in s.free[k] <==> OnlyBuddyUsed(s, k, i)))
    && s.free[s.Max()] == []
  }

  /** The allocator invariant. The first bytes of the heap hold the allocator's own tables, so
      every block that contains leaf 0 stays in use and the top block stays split. */
  ghost predicate Inv(s: State) {
    && Shape(s)
    && (forall k :: 0 <= k <= s.Max() ==> s.alloc[k][0])
    && SplitsAgree(s)
    && FreeListsAgree(s)
  }

  /** In use and whole: handed out by bd_malloc, or a leaf set aside by bd_mark. */
  ghost predicate IsLive(s: State, k: int, i: int) {
    IsBlock(s, k, i) && |s.split| == |s.alloc| && |s.split[k]| == |s.alloc[k]| && s.alloc[k][i] && !s.split[k][i]
  }

  ghost predicate IsFree(s: State, k: int, i: int) {
    0 <= k < |s.free| && 0 <= i && i in s.free[k]
  }

  ghost predicate IsTile(s: State, k: int, i: int) {
    IsLive(s, k, i) || IsFree(s, k, i)
  }

  // ---- allocation ----

  /** The smallest size at or above k with a free block, or nsizes when there is none. */
  function FindFree(s: State, k: nat): (r: nat)
    requires k <= |s.free|
    ensures k <= r <= |s.free|
    ensures r < |s.free| ==> s.free[r] != []
    ensures forall j :: k <= j < r ==> s.free[j] == []
    decreases |s.free| - k
  {
    if k == |s.free| || s.free[k] != [] then k else FindFree(s, k + 1)
  }

  /** Pop the front block of size k and mark it in use. */
  function TakeFront(s: State, k: nat): (r: State)
    requires Shape(s) && k < |s.free| && s.free[k] != [] && s.free[k][0] < |s.alloc[k]|
    ensures Shape(r)
  {
    s.(free := s.free[k := s.free[k][1..]],
       alloc := s.alloc[k := s.alloc[k][s.free[k][0] := true]])
  }

  /** Split block (k, i): the left half is taken, the right half goes on the free list below. */
  function SplitOnce(s: State, k: nat, i: nat): (r: State)
    requires Shape(s) && 1 <= k && IsBlock(s, k, i)
    ensures Shape(r)
  {
    s.(split := s.split[k := s.split[k][i := true]],
       alloc := s.alloc[k - 1 := s.alloc[k - 1][2 * i := true]],
       free := s.free[k - 1 := [2 * i + 1] + s.free[k - 1]])
  }

  /** Split from size k down to size fk, always keeping the left half. */
  function Descend(s: State, k: nat, i: nat, fk: nat): (r: (State, nat))
    requires Shape(s) && fk <= k && IsBlock(s, k, i)
    ensures Shape(r.0) && IsBlock(r.0, fk, r.1)
    decreases k
  {
    if k == fk then (s, i) else Descend(SplitOnce(s, k, i), k - 1, 2 * i, fk)
  }

  datatype MallocResult = NoMemory | Got(s: State, i: nat)

  /** bd_malloc for size index fk. */
  function Malloc(s: State, fk: nat): (r: MallocResult)
    requires Inv(s)
  {
    if fk >= |s.free| then NoMemory
    else
      var k := FindFree(s, fk);
      if k == |s.free| then NoMemory
      else
        assert s.free[k][0] in s.free[k];
        var (s', i) := Descend(TakeFront(s, k), k, s.free[k][0], fk);
        Got(s', i)
  }

  // ---- release ----

  function Without(q: seq<nat>, x: nat): seq<nat>
    requires x in q
  {
    q[..Position(q, x)] + q[Position(q, x) + 1..]
  }

  function ClearAlloc(s: State, k: nat, i: nat): (r: State)
    requires Shape(s) && IsBlock(s, k, i)
    ensures Shape(r)
  {
    s.(alloc := s.alloc[k := s.alloc[k][i := false]])
  }

  function PushFree(s: State, k: nat, i: nat): (r: State)
    requires Shape(s) && IsBlock(s, k, i)
    ensures Shape(r)
  {
    s.(free := s.free[k := [i] + s.free[k]])
  }

  /** Block (k, i) is released and its buddy is free: take the buddy off its list and make
      the parent whole. */
  function Merge(s: State, k: nat, i: nat): (r: State)
    requires Shape(s) && k < s.Max() && IsBlock(s, k, i) && BuddyOf(i) in s.free[k]
    ensures Shape(r) && IsBlock(r, k + 1, i / 2)
  {
    ClearAlloc(s, k, i).(free := s.free[k := Without(s.free[k], BuddyOf(i))],
                         split := s.split[k + 1 := s.split[k + 1][i / 2 := false]])
  }

  /** Release the live block (k, i), merging upwards as long as the buddy is free. */
  function Release(s: State, k: nat, i: nat): (r: State)
    requires Inv(s) && IsLive(s, k, i) && i > 0
    decreases |s.alloc| - k
  {
    assert k < s.Max();
    BuddyIsBlock(s, k, i);
    if s.alloc[k][BuddyOf(i)] then PushFree(ClearAlloc(s, k, i), k, i)
    else
      MergeKeeps(s, k, i);
      Release(Merge(s, k, i), k + 1, i / 2)
  }

  lemma BuddyIsBlock(s: State, k: nat, i: nat)
    requires Shape(s) && k < s.Max() && IsBlock(s, k, i)
    ensures IsBlock(s, k, BuddyOf(i)) && BuddyOf(i) / 2 == i / 2 && BuddyOf(BuddyOf(i)) == i
    ensures IsBlock(s, k + 1, i / 2)
  {
  }

  // ---- each step keeps the invariant ----

  lemma ParentSplit(s: State, k: nat, i: nat)
    requires Inv(s) && k < s.Max() && IsBlock(s, k, i) && s.alloc[k][i]
    ensures IsBlock(s, k + 1, i / 2) && s.split[k + 1][i / 2] && s.alloc[k + 1][i / 2]
  {
    BuddyIsBlock(s, k, i);
    assert SplitAt(s, k + 1, i / 2);
  }

  lemma TakeFrontKeeps(s: State, k: nat)
    requires Inv(s) && k < |s.free| && s.free[k] != []
    ensures k < s.Max() && OnlyBuddyUsed(s, k, s.free[k][0])
    ensures Inv(TakeFront(s, k)) && IsLive(TakeFront(s, k), k, s.free[k][0]) && s.free[k][0] > 0
  {
    var p := s.free[k][0];
    assert p in s.free[k];
    BuddyIsBlock(s, k, p);
    assert OnlyBuddyUsed(s, k, p);
    TakeFrontSplits(s, k);
    TakeFrontFreeLists(s, k);
  }

  lemma TakeFrontSplits(s: State, k: nat)
    requires Inv(s) && k < s.Max() && s.free[k] != [] && OnlyBuddyUsed(s, k, s.free[k][0])
    ensures SplitsAgree(TakeFront(s, k))
  {
    var p := s.free[k][0];
    var r := TakeFront(s, k);
    BuddyIsBlock(s, k, p);
    ParentSplit(s, k, BuddyOf(p));
    forall k', j | 1 <= k' <= r.Max() && 0 <= j < |r.split[k']|
      ensures SplitAt(r, k', j)
    {
      assert SplitAt(s, k', j);
    }
  }

  lemma TakeFrontFreeLists(s: State, k: nat)
    requires Inv(s) && k < s.Max() && s.free[k] != [] && OnlyBuddyUsed(s, k, s.free[k][0])
    ensures FreeListsAgree(TakeFront(s, k))
  {
    var p := s.free[k][0];
    var r := TakeFront(s, k);
    BuddyIsBlock(s, k, p);
    forall k': nat, i: nat | k' < r.Max()
      ensures i in r.free[k'] <==> OnlyBuddyUsed(r, k', i)
    {
      assert i in s.free[k'] <==> OnlyBuddyUsed(s, k', i);
      if k' == k {
        assert s.free[k] == [p] + r.free[k];
      }
    }
  }

  lemma SplitOnceKeeps(s: State, k: nat, i: nat)
    requires Inv(s) && 1 <= k && IsLive(s, k, i)
    ensures !s.alloc[k - 1][2 * i] && !s.alloc[k - 1][2 * i + 1]
    ensures Inv(SplitOnce(s, k, i)) && IsLive(SplitOnce(s, k, i), k - 1, 2 * i)
  {
    assert SplitAt(s, k, i);
    SplitOnceSplits(s, k, i);
    SplitOnceFreeLists(s, k, i);
  }

  lemma SplitOnceSplits(s: State, k: nat, i: nat)
    requires Inv(s) && 1 <= k && IsLive(s, k, i)
    ensures SplitsAgree(SplitOnce(s, k, i))
  {
    var r := SplitOnce(s, k, i);
    forall k', j | 1 <= k' <= r.Max() && 0 <= j < |r.split[k']|
      ensures SplitAt(r, k', j)
    {
      assert SplitAt(s, k', j);
    }
  }

  lemma SplitOnceFreeAt(s: State, k: nat, i: nat, k': nat, j: nat)
    requires Inv(s) && 1 <= k && IsLive(s, k, i) && k' < s.Max()
    ensures j in SplitOnce(s, k, i).free[k'] <==> OnlyBuddyUsed(SplitOnce(s, k, i), k', j)
  {
    var r := SplitOnce(s, k, i);
    assert SplitAt(s, k, i);
    assert j in s.free[k'] <==> OnlyBuddyUsed(s, k', j);
    if k' == k - 1 {
      assert BuddyOf(j) == 2 * i <==> j == 2 * i + 1;
      assert r.alloc[k'] == s.alloc[k'][2 * i := true];
    } else {
      assert r.alloc[k'] == s.alloc[k'] && r.free[k'] == s.free[k'];
    }
  }

  lemma SplitOnceFreeLists(s: State, k: nat, i: nat)
    requires Inv(s) && 1 <= k && IsLive(s, k, i)
    ensures FreeListsAgree(SplitOnce(s, k, i))
  {
    var r := SplitOnce(s, k, i);
    assert SplitAt(s, k, i);
    assert 2 * i + 1 in s.free[k - 1] <==> OnlyBuddyUsed(s, k - 1, 2 * i + 1);
    hide OnlyBuddyUsed, SplitsAgree;
    forall k': nat, j: nat | k' < r.Max()
      ensures j in r.free[k'] <==> OnlyBuddyUsed(r, k', j)
    {
      SplitOnceFreeAt(s, k, i, k', j);
    }
  }

  lemma WithoutMembers(q: seq<nat>, x: nat)
    requires x in q && Distinct(q)
    ensures Distinct(Without(q, x))
    ensures forall y :: y in Without(q, x) <==> y in q && y != x
  {
    var n := Position(q, x);
    var w := Without(q, x);
    forall y | y in q && y != x
      ensures y in w
    {
      var m :| 0 <= m < |q| && q[m] == y;
      assert w[if m < n then m else m - 1] == y;
    }
  }

  /** Merging makes the parent the live block to release next; it never reaches leaf 0. */
  lemma MergeKeeps(s: State, k: nat, i: nat)
    requires Inv(s) && IsLive(s, k, i) && i > 0 && k < s.Max() && IsBlock(s, k, BuddyOf(i)) && !s.alloc[k][BuddyOf(i)]
    ensures BuddyOf(i) in s.free[k]
    ensures Inv(Merge(s, k, i)) && IsLive(Merge(s, k, i), k + 1, i / 2) && i / 2 > 0
  {
    BuddyIsBlock(s, k, i);
    assert OnlyBuddyUsed(s, k, BuddyOf(i));
    ParentSplit(s, k, i);
    assert i / 2 > 0 by {
      assert BuddyOf(1) == 0;
    }
    MergeSplits(s, k, i);
    MergeFreeLists(s, k, i);
    var r := Merge(s, k, i);
    assert forall k' :: 0 <= k' <= r.Max() ==> |r.alloc[k']| == |s.alloc[k']|;
  }

  lemma MergeSplits(s: State, k: nat, i: nat)
    requires Inv(s) && IsLive(s, k, i) && i > 0 && k < s.Max() && BuddyOf(i) in s.free[k]
    ensures SplitsAgree(Merge(s, k, i))
  {
    var r := Merge(s, k, i);
    assert OnlyBuddyUsed(s, k, BuddyOf(i));
    forall k', j | 1 <= k' <= r.Max() && 0 <= j < |r.split[k']|
      ensures SplitAt(r, k', j)
    {
      assert SplitAt(s, k', j);
    }
  }

  lemma MergeFreeLists(s: State, k: nat, i: nat)
    requires Inv(s) && IsLive(s, k, i) && i > 0 && k < s.Max() && BuddyOf(i) in s.free[k]
    ensures FreeListsAgree(Merge(s, k, i))
  {
    var r := Merge(s, k, i);
    assert OnlyBuddyUsed(s, k, BuddyOf(i));
    WithoutMembers(s.free[k], BuddyOf(i));
    forall k': nat, j: nat | k' < r.Max()
      ensures j in r.free[k'] <==> OnlyBuddyUsed(r, k', j)
    {
      assert j in s.free[k'] <==> OnlyBuddyUsed(s, k', j);
      if k' == k {
        assert BuddyOf(j) == i <==> j == BuddyOf(i);
        assert r.alloc[k'] == s.alloc[k'][i := false];
      } else {
        assert r.alloc[k'] == s.alloc[k'] && r.free[k'] == s.free[k'];
      }
    }
  }
}
