/** How much memory the buddy allocator manages, and what bd_init puts on the free lists. */
module BuddyInit {
  import opened Ring
  import opened BuddySpec

  const LEAF_SIZE: nat := 16

  function BlkSize(k: nat): (r: nat)
    ensures r > 0
  {
    Pow2(k) * LEAF_SIZE
  }

  /** blk_index on an offset n from bd_base, by halving; BlkIndexIsDiv gives the source's form. */
  function BlkIndex(k: nat, n: nat): nat
    decreases k
  {
    if k == 0 then n / LEAF_SIZE else BlkIndex(k - 1, n) / 2
  }

  /** blk_index_next: the first block at size k that doesn't contain offset n. */
  function BlkIndexNext(k: nat, n: nat): nat
    decreases k
  {
    if k == 0 then (n + LEAF_SIZE - 1) / LEAF_SIZE else (BlkIndexNext(k - 1, n) + 1) / 2
  }

  lemma DivUnique(n: int, d: int, q: int)
    requires d > 0 && q * d <= n < q * d + d
    ensures n / d == q && n % d == n - q * d
  {
    var e := n / d;
    assert e * d + n % d == n;
    assert e < q ==> e * d <= (q - 1) * d;
    assert e > q ==> e * d >= (q + 1) * d;
  }

  lemma HalveDown(n: int, b: int, q: int, h: int)
    requires q * b <= n < q * b + b && (q == 2 * h || q == 2 * h + 1)
    ensures h * (2 * b) <= n < h * (2 * b) + 2 * b
  {
    assert (2 * h) * b == h * (2 * b);
    assert (2 * h + 1) * b == (2 * h) * b + b;
  }

  lemma HalveUp(n: int, b: int, q: int, h: int)
    requires q * b - b < n <= q * b && (q == 2 * h || q == 2 * h - 1)
    ensures h * (2 * b) - 2 * b < n <= h * (2 * b)
  {
    assert (2 * h) * b == h * (2 * b);
    assert (2 * h - 1) * b == (2 * h) * b - b;
  }

  lemma {:induction false} BlkIndexBounds(k: nat, n: nat)
    ensures BlkIndex(k, n) * BlkSize(k) <= n < BlkIndex(k, n) * BlkSize(k) + BlkSize(k)
    decreases k
  {
    if k > 0 {
      BlkIndexBounds(k - 1, n);
      HalveDown(n, BlkSize(k - 1), BlkIndex(k - 1, n), BlkIndex(k, n));
    }
  }

  lemma {:induction false} BlkIndexNextBounds(k: nat, n: nat)
    ensures BlkIndexNext(k, n) * BlkSize(k) - BlkSize(k) < n <= BlkIndexNext(k, n) * BlkSize(k)
    decreases k
  {
    if k > 0 {
      BlkIndexNextBounds(k - 1, n);
      HalveUp(n, BlkSize(k - 1), BlkIndexNext(k - 1, n), BlkIndexNext(k, n));
    }
  }

  /** Both index functions are the divisions the source computes. */
  lemma BlkIndexIsDiv(k: nat, n: nat)
    ensures BlkIndex(k, n) == n / BlkSize(k)
    ensures BlkIndexNext(k, n) == if n % BlkSize(k) != 0 then n / BlkSize(k) + 1 else n / BlkSize(k)
  {
    BlkIndexBounds(k, n);
    BlkIndexNextBounds(k, n);
    DivUnique(n, BlkSize(k), BlkIndex(k, n));
    DivUp(n, BlkSize(k), BlkIndexNext(k, n));
  }

  lemma DivUp(n: int, d: int, q: int)
    requires d > 0 && q * d - d < n <= q * d
    ensures q == if n % d != 0 then n / d + 1 else n / d
  {
    if q * d == n {
      DivUnique(n, d, q);
    } else {
      assert (q - 1) * d == q * d - d;
      DivUnique(n, d, q - 1);
    }
  }

  // ---- counting bits ----

  function Count(a: seq<bool>): nat {
    if a == [] then 0 else Count(a[..|a| - 1]) + if a[|a| - 1] then 1 else 0
  }

  /** The number of pairs of buddies of which exactly one is set. */
  function Lone(a: seq<bool>): nat {
    if |a| < 2 then 0 else Lone(a[..|a| - 2]) + if a[|a| - 2] != a[|a| - 1] then 1 else 0
  }

  lemma {:induction false} PairCount(a: seq<bool>, p: seq<bool>)
    requires |a| == 2 * |p| && forall j :: 0 <= j < |p| ==> (p[j] <==> a[2 * j] || a[2 * j + 1])
    ensures Count(a) + Lone(a) == 2 * Count(p)
    decreases |p|
  {
    if |p| > 0 {
      var b, q := a[..|a| - 2], p[..|p| - 1];
      forall j | 0 <= j < |q|
        ensures q[j] <==> b[2 * j] || b[2 * j + 1]
      {
        assert p[j] <==> a[2 * j] || a[2 * j + 1];
      }
      PairCount(b, q);
      assert a[..|a| - 1][..|a| - 2] == b;
      assert p[|p| - 1] <==> a[2 * (|p| - 1)] || a[2 * (|p| - 1) + 1];
    }
  }

  /** Memory of the lone blocks below size k, in leaves. */
  function LoneUnits(s: State, k: nat): nat
    requires k <= |s.alloc|
  {
    if k == 0 then 0 else LoneUnits(s, k - 1) + Pow2(k - 1) * Lone(s.alloc[k - 1])
  }

  /** Memory on the free lists below size k, in leaves. */
  function FreeUnits(s: State, k: nat): nat
    requires k <= |s.free|
  {
    if k == 0 then 0 else FreeUnits(s, k - 1) + Pow2(k - 1) * |s.free[k - 1]|
  }

  /** Memory in use below size k, in leaves: blocks set but not split. */
  function LiveUnits(s: State, k: nat): int
    requires k <= |s.alloc| == |s.split|
  {
    if k == 0 then 0 else LiveUnits(s, k - 1) + Pow2(k - 1) * (Count(s.alloc[k - 1]) - Count(s.split[k - 1]))
  }

  lemma {:induction false} CountNone(a: seq<bool>)
    requires forall i :: 0 <= i < |a| ==> !a[i]
    ensures Count(a) == 0
    decreases |a|
  {
    if a != [] {
      CountNone(a[..|a| - 1]);
    }
  }

  /** The sum over the sizes telescopes: each split block is worth its two halves. */
  lemma {:induction false} Telescope(s: State, k: nat)
    requires Shape(s) && SplitsAgree(s) && k <= s.Max()
    ensures LoneUnits(s, k) + LiveUnits(s, k) == Pow2(k) * Count(s.split[k])
    decreases k
  {
    if k == 0 {
      CountNone(s.split[0]);
    } else {
      Telescope(s, k - 1);
      forall j | 0 <= j < |s.split[k]|
        ensures s.split[k][j] <==> s.alloc[k - 1][2 * j] || s.alloc[k - 1][2 * j + 1]
      {
        assert SplitAt(s, k, j);
      }
      PairCount(s.alloc[k - 1], s.split[k]);
      Distribute(Pow2(k - 1), Lone(s.alloc[k - 1]), Count(s.alloc[k - 1]), Count(s.split[k - 1]), Count(s.split[k]));
    }
  }

  lemma Distribute(p: int, l: int, a: int, b: int, c: int)
    requires a + l == 2 * c
    ensures p * l + p * (a - b) + p * b == 2 * p * c
  {
    assert p * l + p * (a - b) + p * b == p * (l + a);
  }

  lemma NonemptyHasMember(q: seq<nat>)
    ensures q != [] ==> exists i :: i in q
  {
    if q != [] {
      assert q[0] in q;
    }
  }

  lemma {:induction false} LoneIsLength(a: seq<bool>, q: seq<nat>)
    requires |a| % 2 == 0 && Distinct(q)
    requires forall i: nat :: i in q <==> i < |a| && !a[i] && a[BuddyOf(i)]
    ensures |q| == Lone(a)
    decreases |a|
  {
    if |a| == 0 {
      NonemptyHasMember(q);
    } else {
      var n := |a|;
      var b := a[..n - 2];
      if a[n - 2] == a[n - 1] {
        forall i: nat
          ensures i in q <==> i < |b| && !b[i] && b[BuddyOf(i)]
        {
          assert i in q <==> i < |a| && !a[i] && a[BuddyOf(i)];
        }
        LoneIsLength(b, q);
      } else {
        var x := if a[n - 1] then n - 2 else n - 1;
        assert x in q;
        WithoutMembers(q, x);
        forall i: nat
          ensures i in Without(q, x) <==> i < |b| && !b[i] && b[BuddyOf(i)]
        {
          assert i in q <==> i < |a| && !a[i] && a[BuddyOf(i)];
        }
        LoneIsLength(b, Without(q, x));
      }
    }
  }

  /** Conservation: free memory and memory in use add up to the heap, in every state. */
  lemma Conservation(s: State)
    requires Inv(s)
    ensures FreeUnits(s, s.Max()) + LiveUnits(s, s.Max()) == Pow2(s.Max())
  {
    FreeIsLone(s, s.Max());
    Telescope(s, s.Max());
    assert s.split[s.Max()] == [true] by {
      assert SplitAt(s, s.Max(), 0);
      assert s.alloc[s.Max() - 1][0];
    }
    assert Count([true]) == 1;
  }

  lemma {:induction false} FreeIsLone(s: State, k: nat)
    requires Inv(s) && k <= s.Max()
    ensures FreeUnits(s, k) == LoneUnits(s, k)
    decreases k
  {
    if k > 0 {
      FreeIsLone(s, k - 1);
      forall i: nat
        ensures i in s.free[k - 1] <==> i < |s.alloc[k - 1]| && !s.alloc[k - 1][i] && s.alloc[k - 1][BuddyOf(i)]
      {
        assert i in s.free[k - 1] <==> OnlyBuddyUsed(s, k - 1, i);
      }
      LoneIsLength(s.alloc[k - 1], s.free[k - 1]);
    }
  }

  // ---- the state bd_init builds ----

  /** A bitmap row with the blocks below a and from b on set. */
  ghost predicate RowIs(row: seq<bool>, a: nat, b: nat) {
    forall j :: 0 <= j < |row| ==> (row[j] <==> j < a || j >= b)
  }

  /** bd_initfree_pair on free list q: push the clear half of a pair that has exactly one. */
  function PairFree(row: seq<bool>, bi: nat, q: seq<nat>): seq<nat>
    requires bi < |row| && |row| % 2 == 0
  {
    if row[bi] == row[BuddyOf(bi)] then q
    else if row[bi] then [BuddyOf(bi)] + q else [bi] + q
  }

  /** What bd_initfree does at one size. */
  function FreeRow(row: seq<bool>, left: nat, right: nat): seq<nat>
    requires left < |row| && right < |row| && |row| % 2 == 0
  {
    var q := PairFree(row, left, []);
    if right <= left then q else PairFree(row, right, q)
  }

  /** The tables end at offset m, the memory ends at offset e: both on leaf boundaries, the
      tables in the lower half and at least one leaf beyond the end of memory. */
  predicate Layout(max: nat, m: nat, e: nat) {
    && max >= 1 && m % LEAF_SIZE == 0 && e % LEAF_SIZE == 0
    && 0 < m <= BlkSize(max - 1) && m <= e < BlkSize(max)
  }

  lemma AtMostOne(q: int, b: int, m: int)
    requires 0 < m <= b && q * b - b < m <= q * b
    ensures q == 1
  {
    assert q >= 2 ==> (q - 2) * b >= 0;
    assert q <= 0 ==> (0 - q) * b >= 0;
  }

  lemma {:induction false} LeftInRange(max: nat, top: nat, k: nat, m: nat)
    requires 0 < m <= BlkSize(top) && k <= top < max
    ensures 1 <= BlkIndexNext(k, m) <= Pow2(top - k)
    ensures Pow2(top - k) < Pow2(max - k)
    decreases top - k
  {
    BlkIndexNextBounds(k, m);
    Pow2Grows(top - k, max - k);
    if k == top {
      AtMostOne(BlkIndexNext(k, m), BlkSize(k), m);
    } else {
      LeftInRange(max, top, k + 1, m);
    }
  }

  lemma {:induction false} Pow2Grows(a: nat, b: nat)
    requires a < b
    ensures Pow2(a) < Pow2(b)
    decreases b
  {
    if a < b - 1 {
      Pow2Grows(a, b - 1);
    }
  }

  lemma ZeroIff(q: nat, b: nat, n: int)
    requires q * b <= n < q * b + b
    ensures q == 0 <==> n < b
  {
    if q > 0 {
      assert (q - 1) * b >= 0;
      assert q * b == (q - 1) * b + b;
    }
  }

  lemma {:induction false} RightInRange(max: nat, k: nat, e: nat)
    requires k <= max
    ensures BlkIndex(k, e) < Pow2(max - k) <==> e < BlkSize(max)
    decreases max - k
  {
    BlkIndexBounds(k, e);
    if k == max {
      ZeroIff(BlkIndex(k, e), BlkSize(k), e);
    } else {
      RightInRange(max, k + 1, e);
    }
  }

  lemma RowsInRange(max: nat, k: nat, m: nat, e: nat)
    requires Layout(max, m, e) && k < max
    ensures 1 <= BlkIndexNext(k, m) < Pow2(max - k) && BlkIndex(k, e) < Pow2(max - k) && Pow2(max - k) % 2 == 0
  {
    hide BlkIndex, BlkIndexNext;
    assert Pow2(max - k) == 2 * Pow2(max - k - 1);
    assert 0 < m <= BlkSize(max - 1) && e < BlkSize(max);
    hide Pow2, BlkSize;
    LeftInRange(max, max - 1, k, m);
    RightInRange(max, k, e);
  }

  /** The rows of size k after bd_mark of [0, m) and of [e, heap): set are the blocks that meet
      either; and the free list of size k after bd_initfree. */
  ghost predicate InitAt(s: State, k: nat, m: nat, e: nat)
    requires Shape(s) && Layout(s.Max(), m, e) && k <= s.Max()
  {
    && RowIs(s.alloc[k], BlkIndexNext(k, m), BlkIndex(k, e))
    && (k > 0 ==> s.split[k] == s.alloc[k])
    && (k == s.Max() ==> s.free[k] == [])
    && (k < s.Max() ==>
          && BlkIndexNext(k, m) < |s.alloc[k]| && BlkIndex(k, e) < |s.alloc[k]| && |s.alloc[k]| % 2 == 0
          && s.free[k] == FreeRow(s.alloc[k], BlkIndexNext(k, m), BlkIndex(k, e)))
  }

  /** The state bd_init builds. */
  ghost predicate IsInit(s: State, m: nat, e: nat) {
    && Shape(s) && Layout(s.Max(), m, e)
    && (forall k: nat :: k <= s.Max() ==> InitAt(s, k, m, e))
    && (forall j :: 0 <= j < |s.split[0]| ==> !s.split[0][j])
  }

  /** The left and the right index name the same pair, which has one clear block: the source
      visits it twice. */
  predicate Doubled(k: nat, m: nat, e: nat) {
    BlkIndexNext(k, m) % 2 == 0 && BlkIndex(k, e) == BlkIndexNext(k, m) + 1
  }

  /** The blocks of a marked row that are clear beside a marked buddy lie in the two boundary pairs. */
  lemma LoneBlocks(row: seq<bool>, a: nat, b: nat, i: nat)
    requires |row| % 2 == 0 && i < |row|
    requires RowIs(row, a, b)
    ensures !row[i] && row[BuddyOf(i)] <==> (i == a && a % 2 == 1 && a < b) || (i == b - 1 && b % 2 == 1 && a < b)
  {}

  lemma FreeRowMembers(row: seq<bool>, a: nat, b: nat)
    requires |row| % 2 == 0 && a < |row| && b < |row|
    requires RowIs(row, a, b)
    ensures forall i: nat :: i in FreeRow(row, a, b) <==> i < |row| && !row[i] && row[BuddyOf(i)]
    ensures !(a % 2 == 0 && b == a + 1) ==> Distinct(FreeRow(row, a, b))
    ensures a % 2 == 0 && b == a + 1 ==> FreeRow(row, a, b) == [a, a]
  {
    forall i: nat
      ensures i in FreeRow(row, a, b) <==> i < |row| && !row[i] && row[BuddyOf(i)]
    {
      if i < |row| {
        LoneBlocks(row, a, b, i);
      }
    }
  }

  lemma FreeRowLength(row: seq<bool>, a: nat, b: nat)
    requires |row| % 2 == 0 && a < |row| && b < |row|
    requires RowIs(row, a, b)
    ensures |FreeRow(row, a, b)| == Lone(row) + if a % 2 == 0 && b == a + 1 then 1 else 0
  {
    FreeRowMembers(row, a, b);
    if a % 2 == 0 && b == a + 1 {
      assert forall i: nat :: i in [a] <==> i in FreeRow(row, a, b);
      LoneIsLength(row, [a]);
    } else {
      LoneIsLength(row, FreeRow(row, a, b));
    }
  }

  lemma InitSplits(s: State, m: nat, e: nat)
    requires IsInit(s, m, e)
    ensures SplitsAgree(s)
    ensures forall k :: 0 <= k <= s.Max() ==> s.alloc[k][0]
  {
    forall k, j | 1 <= k <= s.Max() && 0 <= j < |s.split[k]|
      ensures SplitAt(s, k, j)
    {
      assert InitAt(s, k, m, e) && InitAt(s, k - 1, m, e);
    }
    forall k, j | 0 <= k <= s.Max() && 0 <= j < |s.split[k]| && s.split[k][j]
      ensures s.alloc[k][j]
    {
      assert InitAt(s, k, m, e);
    }
    forall k | 0 <= k <= s.Max()
      ensures s.alloc[k][0]
    {
      assert InitAt(s, k, m, e);
      LeftInRange(s.Max() + 1, s.Max(), k, m);
    }
  }

  /** bd_init establishes the allocator invariant when no boundary pair is visited twice. */
  lemma InitInv(s: State, m: nat, e: nat)
    requires IsInit(s, m, e) && forall k: nat :: k < s.Max() ==> !Doubled(k, m, e)
    ensures Inv(s)
  {
    InitSplits(s, m, e);
    forall k: nat | k < s.Max()
      ensures Distinct(s.free[k]) && forall i: nat :: i in s.free[k] <==> OnlyBuddyUsed(s, k, i)
    {
      RowsInRange(s.Max(), k, m, e);
      assert !Doubled(k, m, e) && InitAt(s, k, m, e);
      FreeRowMembers(s.alloc[k], BlkIndexNext(k, m), BlkIndex(k, e));
    }
    assert InitAt(s, s.Max(), m, e);
  }

  // ---- accounting ----

  function DoubledUnits(k: nat, m: nat, e: nat): nat
    decreases k
  {
    if k == 0 then 0 else DoubledUnits(k - 1, m, e) + if Doubled(k - 1, m, e) then Pow2(k - 1) else 0
  }

  lemma {:induction false} NothingDoubled(k: nat, m: nat, e: nat)
    ensures DoubledUnits(k, m, e) == 0 <==> forall j: nat :: j < k ==> !Doubled(j, m, e)
    decreases k
  {
    if k > 0 {
      NothingDoubled(k - 1, m, e);
      if Doubled(k - 1, m, e) {
        assert DoubledUnits(k, m, e) > 0;
      }
    }
  }

  lemma Distribute1(p: int, l: int)
    ensures p * (l + 1) == p * l + p
  {}

  lemma {:induction false} InitFreeUnits(s: State, m: nat, e: nat, k: nat)
    requires IsInit(s, m, e) && k <= s.Max()
    ensures FreeUnits(s, k) == LoneUnits(s, k) + DoubledUnits(k, m, e)
    decreases k
  {
    if k > 0 {
      InitFreeUnits(s, m, e, k - 1);
      RowsInRange(s.Max(), k - 1, m, e);
      assert InitAt(s, k - 1, m, e);
      FreeRowLength(s.alloc[k - 1], BlkIndexNext(k - 1, m), BlkIndex(k - 1, e));
      Distribute1(Pow2(k - 1), Lone(s.alloc[k - 1]));
    }
  }

  lemma {:induction false} InitLiveUnits(s: State, m: nat, e: nat, k: nat)
    requires IsInit(s, m, e) && 1 <= k <= s.Max()
    ensures LiveUnits(s, k) == Count(s.alloc[0])
    decreases k
  {
    if k == 1 {
      CountNone(s.split[0]);
      assert LiveUnits(s, 0) == 0;
    } else {
      InitLiveUnits(s, m, e, k - 1);
      assert InitAt(s, k - 1, m, e);
    }
  }

  lemma {:induction false} CountEnds(row: seq<bool>, a: nat, b: nat)
    requires a <= b && RowIs(row, a, b)
    ensures Count(row) == if |row| <= a then |row| else if |row| <= b then a else a + |row| - b
    decreases |row|
  {
    if row != [] {
      CountEnds(row[..|row| - 1], a, b);
    }
  }

  lemma TopIsSplit(s: State, m: nat, e: nat)
    requires IsInit(s, m, e)
    ensures Count(s.split[s.Max()]) == 1
  {
    assert InitAt(s, s.Max(), m, e);
    InitSplits(s, m, e);
    assert s.split[s.Max()] == [true];
  }

  /** The memory bd_initfree reports, in leaves. */
  lemma InitFreeTotal(s: State, m: nat, e: nat)
    requires IsInit(s, m, e)
    ensures FreeUnits(s, s.Max()) == (e - m) / LEAF_SIZE + DoubledUnits(s.Max(), m, e)
  {
    InitSplits(s, m, e);
    Telescope(s, s.Max());
    TopIsSplit(s, m, e);
    InitLiveUnits(s, m, e, s.Max());
    InitFreeUnits(s, m, e, s.Max());
    assert InitAt(s, 0, m, e);
    LeavesMarked(s.Max(), s.alloc[0], m, e);
  }

  lemma LeavesMarked(max: nat, row: seq<bool>, m: nat, e: nat)
    requires Layout(max, m, e) && |row| == Pow2(max) && RowIs(row, BlkIndexNext(0, m), BlkIndex(0, e))
    ensures Count(row) == Pow2(max) - (e - m) / LEAF_SIZE
  {
    RightInRange(max, 0, e);
    CountEnds(row, BlkIndexNext(0, m), BlkIndex(0, e));
  }

  lemma SameLeaves(f: nat, d: nat, m: nat, e: nat)
    requires f == (e - m) / LEAF_SIZE + d && m <= e && m % LEAF_SIZE == 0 && e % LEAF_SIZE == 0
    ensures f * LEAF_SIZE == e - m <==> d == 0
  {}

  /** The amount found free is heap - meta - unavailable, so that bd_init does not panic,
      exactly when no size has its two boundary indices in one half-free pair. */
  lemma InitAccounting(s: State, m: nat, e: nat)
    requires IsInit(s, m, e)
    ensures FreeUnits(s, s.Max()) * LEAF_SIZE == BlkSize(s.Max()) - m - (BlkSize(s.Max()) - e) <==>
            forall k: nat :: k < s.Max() ==> !Doubled(k, m, e)
  {
    InitFreeTotal(s, m, e);
    NothingDoubled(s.Max(), m, e);
    SameLeaves(FreeUnits(s, s.Max()), DoubledUnits(s.Max(), m, e), m, e);
  }

  /** Tables in the first quarter and memory reaching the second half rule that out. */
  lemma QuarterSuffices(max: nat, m: nat, e: nat, k: nat)
    requires max >= 2 && 0 < m <= BlkSize(max - 2) && BlkSize(max - 1) <= e && k < max
    ensures !Doubled(k, m, e)
  {
    if k == max - 1 {
      assert BlkSize(max - 2) <= BlkSize(max - 1);
      LeftInRange(max, max - 1, k, m);
    } else {
      LeftInRange(max, max - 2, k, m);
      RightInRange(max - 1, k, e);
    }
  }

  // ---- the sizes bd_init chooses ----

  /** log2 */
  function Log2(n: nat): (k: nat)
    ensures n >= 1 ==> Pow2(k) <= n < 2 * Pow2(k)
  {
    if n <= 1 then 0 else 1 + Log2(n / 2)
  }

  /** MAXSIZE for len bytes of memory. */
  function MaxFor(len: nat): nat {
    var k := Log2(len / LEAF_SIZE);
    if len > BlkSize(k) then k + 1 else k
  }

  /** ROUNDUP to a multiple of LEAF_SIZE. */
  function RoundUp(n: nat): (r: nat)
    ensures r % LEAF_SIZE == 0 && n <= r < n + LEAF_SIZE
  {
    (n + LEAF_SIZE - 1) / LEAF_SIZE * LEAF_SIZE
  }

  /** Bytes of the bitmap rows of 2^0, ..., 2^n blocks. */
  function RowBytes(n: nat): nat {
    (Pow2(n) + 7) / 8 + if n == 0 then 0 else RowBytes(n - 1)
  }

  /** Where the tables end: the size array (32 bytes a size), the alloc rows, the split rows. */
  function MetaBytes(max: nat): nat {
    RoundUp(32 * (max + 1) + RowBytes(max) + if max == 0 then 0 else RowBytes(max - 1))
  }

  /** The end of memory that can be used, in whole leaves. */
  function MemEnd(len: nat): nat { len / LEAF_SIZE * LEAF_SIZE }

  lemma {:induction false} TablesFit(max: nat)
    requires max >= 6
    ensures 32 * (max + 1) + RowBytes(max) + RowBytes(max - 1) + 4 <= 4 * Pow2(max) && Pow2(max) >= 64
    decreases max
  {
    if max == 6 {
      assert Pow2(2) == 4 && Pow2(4) == 16 && Pow2(6) == 64;
      assert RowBytes(1) == 2 && RowBytes(3) == 4 && RowBytes(5) == 10;
    } else {
      TablesFit(max - 1);
    }
  }

  lemma MaxForBounds(len: nat)
    requires len >= LEAF_SIZE && len < BlkSize(MaxFor(len))
    ensures MaxFor(len) >= 1 && BlkSize(MaxFor(len) - 1) < len
  {
    var k := Log2(len / LEAF_SIZE);
    assert Pow2(k) <= len / LEAF_SIZE;
  }

  lemma MetaInQuarter(max: nat)
    requires max >= 6
    ensures 0 < MetaBytes(max) <= BlkSize(max - 2) && MetaBytes(max) % LEAF_SIZE == 0
  {
    TablesFit(max);
    assert Pow2(max) == 2 * Pow2(max - 1) && Pow2(max - 1) == 2 * Pow2(max - 2);
    RoundUpWithin(32 * (max + 1) + RowBytes(max) + RowBytes(max - 1), Pow2(max - 2));
  }

  lemma RoundUpWithin(n: nat, x: nat)
    requires n <= LEAF_SIZE * x
    ensures RoundUp(n) <= LEAF_SIZE * x
  {}

  lemma LeafFloor(len: nat, max: nat)
    requires max >= 1 && BlkSize(max - 1) < len < BlkSize(max)
    ensures BlkSize(max - 1) <= len / LEAF_SIZE * LEAF_SIZE < BlkSize(max)
    ensures len / LEAF_SIZE * LEAF_SIZE % LEAF_SIZE == 0
  {}

  lemma {:induction false} Pow2AtMost(a: nat, b: nat)
    requires a <= b
    ensures Pow2(a) <= Pow2(b)
    decreases b
  {
    if a < b {
      Pow2AtMost(a, b - 1);
    }
  }

  /** The tables lie inside the memory, and bd_init stays inside every bitmap, exactly when they take
      at most half of the heap and some of the heap is missing. */
  lemma LayoutIff(max: nat, m: nat, e: nat)
    requires max >= 1 && 0 < m && m % LEAF_SIZE == 0 && e % LEAF_SIZE == 0
    ensures Layout(max, m, e) <==>
            m <= e && forall k: nat :: k < max ==> BlkIndexNext(k, m) < Pow2(max - k) && BlkIndex(k, e) < Pow2(max - k)
  {
    if Layout(max, m, e) {
      forall k: nat | k < max ensures BlkIndexNext(k, m) < Pow2(max - k) && BlkIndex(k, e) < Pow2(max - k) {
        RowsInRange(max, k, m, e);
      }
    } else if m <= e {
      var k: nat := max - 1;
      RightInRange(max, k, e);
      BlkIndexIsDiv(k, m);
      if m > BlkSize(k) { AboveOne(m, BlkSize(k)); }
      assert Pow2(max - k) == 2;
      assert !(BlkIndexNext(k, m) < Pow2(max - k) && BlkIndex(k, e) < Pow2(max - k));
    }
  }

  lemma AboveOne(m: nat, b: nat)
    requires b > 0 && m > b
    ensures (if m % b != 0 then m / b + 1 else m / b) >= 2
  {
    if m / b < 2 {
      assert m / b == 1;
    }
  }

  /** On a memory of len bytes bd_init lays out its tables inside it, stays inside its bitmaps, and
      names no pair twice. */
  ghost predicate Sound(len: nat) {
    var max, m, e := MaxFor(len), MetaBytes(MaxFor(len)), MemEnd(len);
    max >= 1 && Layout(max, m, e) && forall k: nat :: k < max ==> !Doubled(k, m, e)
  }

  /** In terms of the length alone: it is not exactly a power of two leaves, and it is above 512, or
      between 257 and 319. */
  predicate Works(len: nat) {
    len < BlkSize(MaxFor(len)) && (257 <= len < 320 || len > 512)
  }

  lemma LargeSound(len: nat)
    requires len > BlkSize(5) && len < BlkSize(MaxFor(len))
    ensures Sound(len)
  {
    var max := MaxFor(len);
    if max < 6 {
      Pow2AtMost(max, 5);
    }
    MaxForBounds(len);
    MetaInQuarter(max);
    LeafFloor(len, max);
    Pow2AtMost(max - 2, max - 1);
    forall k: nat | k < max ensures !Doubled(k, MetaBytes(max), MemEnd(len)) {
      QuarterSuffices(max, MetaBytes(max), MemEnd(len), k);
    }
  }

  lemma SmallSizes()
    ensures BlkSize(0) == 16 && BlkSize(1) == 32 && BlkSize(2) == 64 && BlkSize(3) == 128 && BlkSize(4) == 256
    ensures BlkSize(5) == 512
    ensures MetaBytes(0) == 48 && MetaBytes(1) == 80 && MetaBytes(2) == 112 && MetaBytes(3) == 144
    ensures MetaBytes(4) == 176 && MetaBytes(5) == 208
  {
    assert Pow2(1) == 2 && Pow2(3) == 8 && Pow2(5) == 32;
    assert RowBytes(0) == 1 && RowBytes(1) == 2 && RowBytes(2) == 3 && RowBytes(3) == 4 && RowBytes(4) == 6
      && RowBytes(5) == 10;
  }

  lemma SmallMax(len: nat)
    ensures len <= 256 <==> MaxFor(len) <= 4
    ensures 256 < len <= 512 <==> MaxFor(len) == 5
  {
    SmallSizes();
    var k := Log2(len / LEAF_SIZE);
    if k < 4 { Pow2AtMost(k, 3); } else { Pow2AtMost(4, k); }
    if k < 5 { Pow2AtMost(k, 4); } else { Pow2AtMost(5, k); }
    if k >= 6 { Pow2AtMost(6, k); }
  }

  /** The boundary pairs of a heap of 512 bytes: the one of size 2 or 3 is named twice from 320 bytes on. */
  lemma MiddlePairs(e: nat)
    requires 256 <= e < 512
    ensures (forall k: nat :: k < 5 ==> !Doubled(k, 208, e)) <==> e < 320
    ensures e >= 320 ==> Doubled(if e < 384 then 2 else 3, 208, e)
  {
    SmallSizes();
    forall k: nat | k < 5 ensures BlkIndexNext(k, 208) == [13, 7, 4, 2, 1][k] && BlkIndex(k, e) == e / BlkSize(k) {
      BlkIndexIsDiv(k, 208);
      BlkIndexIsDiv(k, e);
    }
    var k: nat := if e < 384 then 2 else 3;
    assert e >= 320 ==> Doubled(k, 208, e);
  }

  lemma LargeIff(len: nat)
    requires len > 512
    ensures Sound(len) <==> Works(len)
  {
    hide Layout, Doubled, MetaBytes, MemEnd, BlkSize, MaxFor;
    SmallSizes();
    if len < BlkSize(MaxFor(len)) { LargeSound(len); } else { FullHeap(len); }
  }

  lemma MiddleIff(len: nat)
    requires 256 < len <= 512
    ensures Sound(len) <==> Works(len)
  {
    hide Doubled, MetaBytes, BlkSize, MaxFor;
    SmallSizes();
    SmallMax(len);
    assert 256 <= MemEnd(len) <= 512 && (MemEnd(len) < 320 <==> len < 320) && (MemEnd(len) == 512 <==> len == 512);
    if len < 512 { MiddlePairs(MemEnd(len)); }
  }

  /** The tables take more than half of the heap. */
  lemma SmallIff(len: nat)
    requires len <= 256
    ensures !Sound(len) && !Works(len)
  {
    hide Doubled, MetaBytes, BlkSize, MaxFor, MemEnd;
    SmallSizes();
    SmallMax(len);
    var max := MaxFor(len);
    assert max == 0 || max == 1 || max == 2 || max == 3 || max == 4;
  }

  /** Exactly on those memories bd_init is sound. */
  lemma WorksIff(len: nat)
    ensures Sound(len) <==> Works(len)
  {
    hide Sound, Works;
    if len > 512 { LargeIff(len); } else if len > 256 { MiddleIff(len); } else { SmallIff(len); }
  }

  lemma FullHeap(len: nat)
    requires len >= BlkSize(MaxFor(len)) && len >= LEAF_SIZE
    ensures !Layout(MaxFor(len), MetaBytes(MaxFor(len)), MemEnd(len))
  {
    var max := MaxFor(len);
    assert MemEnd(len) >= BlkSize(max) by { WholeLeaves(len, Pow2(max)); }
  }

  lemma WholeLeaves(len: nat, x: nat)
    requires len >= x * LEAF_SIZE
    ensures len / LEAF_SIZE * LEAF_SIZE >= x * LEAF_SIZE
  {}

  /** On every memory that bd_init lays out properly, its final check passes exactly unless the length
      is between 320 and 511; then the invariant holds as well. */
  lemma InitTheorem(s: State, len: nat)
    requires s.Max() == MaxFor(len) && s.Max() >= 1 && IsInit(s, MetaBytes(s.Max()), MemEnd(len))
    ensures FreeUnits(s, s.Max()) * LEAF_SIZE == MemEnd(len) - MetaBytes(s.Max()) <==> len < 320 || len > 512
    ensures len < 320 || len > 512 ==> Inv(s)
  {
    WorksIff(len);
    SmallMax(len);
    SmallSizes();
    InitAccounting(s, MetaBytes(s.Max()), MemEnd(len));
    if len >= BlkSize(MaxFor(len)) && len >= LEAF_SIZE { FullHeap(len); }
    if Sound(len) { InitInv(s, MetaBytes(s.Max()), MemEnd(len)); }
  }

  /** The shortest memory on which the check fails: size 2 has its left and right index in one pair. */
  lemma DoubledHappens()
    ensures MaxFor(320) == 5 && MetaBytes(5) == 208 && MemEnd(320) == 320 && Layout(5, 208, 320) && Doubled(2, 208, 320)
    ensures forall s: State :: s.Max() == 5 && IsInit(s, 208, 320) ==> FreeUnits(s, 5) * LEAF_SIZE != 320 - 208
  {
    SmallSizes();
    SmallMax(320);
    MiddlePairs(320);
    hide IsInit, FreeUnits;
    forall s: State | s.Max() == 5 && IsInit(s, 208, 320) ensures FreeUnits(s, 5) * LEAF_SIZE != 320 - 208 {
      InitTheorem(s, 320);
    }
  }
}
