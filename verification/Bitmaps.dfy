/** Where the allocator of kernel/buddy.c keeps its bitmaps: after the bd_sizes array at the start
    of the heap come the alloc rows of all sizes and then the split rows of sizes 1 and up, one bit
    a block, eight bits a byte. */
module Bitmaps {
  import opened BuddySpec
  import opened BuddyInit

  /** The bitmaps have one bit per block. */
  ghost predicate RowsFit(alloc: seq<seq<bool>>, split: seq<seq<bool>>, n: nat) {
    && |alloc| == |split| == n
    && (forall k :: 0 <= k < n ==> |alloc[k]| == Pow2(n - 1 - k))
    && (forall k :: 0 <= k < n ==> |split[k]| == Pow2(n - 1 - k))
  }

  ghost predicate IsClear(alloc: seq<seq<bool>>, split: seq<seq<bool>>) {
    && (forall k, j :: 0 <= k < |alloc| && 0 <= j < |alloc[k]| ==> !alloc[k][j])
    && (forall k, j :: 0 <= k < |split| && 0 <= j < |split[k]| ==> !split[k][j])
  }

  /** The bytes of the row of size k. */
  function RowSize(max: nat, k: nat): nat
    requires k <= max
  {
    (Pow2(max - k) + 7) / 8
  }

  /** The first byte of the alloc row of size k, and of its split row. */
  ghost function AllocRow(max: nat, k: nat): int
    requires k <= max
  {
    32 * (max + 1) + RowBytes(max) - RowBytes(max - k)
  }

  ghost function SplitRow(max: nat, k: nat): int
    requires 1 <= k <= max
  {
    32 * (max + 1) + RowBytes(max) + RowBytes(max - 1) - RowBytes(max - k)
  }

  lemma {:induction false} RowsGrow(a: nat, b: nat)
    requires a < b
    ensures RowBytes(a) + (Pow2(b) + 7) / 8 <= RowBytes(b)
  {
    if a < b - 1 {
      RowsGrow(a, b - 1);
    }
  }

  /** Rows lie after the bd_sizes array, in the order they are laid out, within the tables. */
  lemma RowsInOrder(max: nat, k: nat, j: nat)
    requires k <= max && j <= max
    ensures 32 * (max + 1) <= AllocRow(max, k)
    ensures k < j ==> AllocRow(max, k) + RowSize(max, k) <= AllocRow(max, j)
    ensures AllocRow(max, k) + RowSize(max, k) <= 32 * (max + 1) + RowBytes(max)
    ensures k >= 1 ==> 32 * (max + 1) + RowBytes(max) <= SplitRow(max, k)
    ensures 1 <= k < j ==> SplitRow(max, k) + RowSize(max, k) <= SplitRow(max, j)
    ensures k >= 1 ==> SplitRow(max, k) + RowSize(max, k) <= MetaBytes(max)
    ensures 32 * (max + 1) + RowBytes(max) <= MetaBytes(max)
  {
    hide Pow2, RowBytes, MetaBytes;
    RowWithin(max - k);
    RowWithin(max - j);
    TablesCover(max);
    if k > 0 { RowsGrow(max - k, max); }
    if k > 1 { RowsGrow(max - k, max - 1); }
    if k < j { RowsGrow(max - j, max - k); }
  }

  lemma RowWithin(n: nat)
    ensures (Pow2(n) + 7) / 8 <= RowBytes(n)
  {}

  lemma TablesCover(max: nat)
    ensures 32 * (max + 1) + RowBytes(max) + (if max == 0 then 0 else RowBytes(max - 1)) <= MetaBytes(max)
  {
    hide RowBytes;
  }

  /** The bit of block (k, i) in the tables. */
  ghost function AllocBit(max: nat, k: nat, i: nat): int
    requires k <= max
  {
    8 * AllocRow(max, k) + i
  }

  ghost function SplitBit(max: nat, k: nat, i: nat): int
    requires 1 <= k <= max
  {
    8 * SplitRow(max, k) + i
  }

  lemma AllocBitsApart(max: nat, k: nat, i: nat, l: nat, j: nat)
    requires k <= max && l <= max && i < Pow2(max - k) && j < Pow2(max - l)
    ensures 0 <= AllocBit(max, k, i) < 8 * MetaBytes(max)
    ensures AllocBit(max, k, i) == AllocBit(max, l, j) ==> k == l && i == j
    ensures l >= 1 ==> AllocBit(max, k, i) != SplitBit(max, l, j)
  {
    RowsInOrder(max, k, l);
    RowsInOrder(max, l, k);
  }

  lemma SplitBitsApart(max: nat, k: nat, i: nat, l: nat, j: nat)
    requires 1 <= k <= max && 1 <= l <= max && i < Pow2(max - k) && j < Pow2(max - l)
    ensures 0 <= SplitBit(max, k, i) < 8 * MetaBytes(max)
    ensures SplitBit(max, k, i) == SplitBit(max, l, j) ==> k == l && i == j
  {
    RowsInOrder(max, k, l);
    RowsInOrder(max, l, k);
  }

  /** The bits of the tables hold the rows. */
  ghost predicate Packed(bits: seq<bool>, alloc: seq<seq<bool>>, split: seq<seq<bool>>) {
    && (forall k: nat, i: nat :: k < |alloc| && i < |alloc[k]| ==> AllocHeld(bits, alloc, k, i))
    && (forall k: nat, i: nat :: 1 <= k < |split| && i < |split[k]| ==> SplitHeld(bits, split, k, i))
  }

  ghost predicate AllocHeld(bits: seq<bool>, alloc: seq<seq<bool>>, k: nat, i: nat)
    requires k < |alloc| && i < |alloc[k]|
  {
    var b := AllocBit(|alloc| - 1, k, i);
    0 <= b < |bits| && bits[b] == alloc[k][i]
  }

  ghost predicate SplitHeld(bits: seq<bool>, split: seq<seq<bool>>, k: nat, i: nat)
    requires 1 <= k < |split| && i < |split[k]|
  {
    var b := SplitBit(|split| - 1, k, i);
    0 <= b < |bits| && bits[b] == split[k][i]
  }

  /** Changing one bit of a row changes one bit of the tables, and the reverse. */
  lemma PutAlloc(bits: seq<bool>, alloc: seq<seq<bool>>, split: seq<seq<bool>>, k: nat, i: nat, v: bool)
    requires Packed(bits, alloc, split) && RowsFit(alloc, split, |alloc|) && k < |alloc| && i < |alloc[k]|
    ensures var b := AllocBit(|alloc| - 1, k, i);
            && 0 <= b < |bits| && bits[b] == alloc[k][i]
            && Packed(bits[b := v], alloc[k := alloc[k][i := v]], split)
  {
    hide AllocBit, SplitBit, MetaBytes;
    assert AllocHeld(bits, alloc, k, i);
    var b := AllocBit(|alloc| - 1, k, i);
    var bits', alloc' := bits[b := v], alloc[k := alloc[k][i := v]];
    forall l: nat, j: nat | l < |alloc'| && j < |alloc'[l]| ensures AllocHeld(bits', alloc', l, j) {
      AllocBitsApart(|alloc| - 1, k, i, l, j);
      assert AllocHeld(bits, alloc, l, j);
    }
    forall l: nat, j: nat | 1 <= l < |split| && j < |split[l]| ensures SplitHeld(bits', split, l, j) {
      AllocBitsApart(|alloc| - 1, k, i, l, j);
      assert SplitHeld(bits, split, l, j);
    }
  }

  lemma PutSplit(bits: seq<bool>, alloc: seq<seq<bool>>, split: seq<seq<bool>>, k: nat, i: nat, v: bool)
    requires Packed(bits, alloc, split) && RowsFit(alloc, split, |alloc|) && 1 <= k < |split| && i < |split[k]|
    ensures var b := SplitBit(|split| - 1, k, i);
            && 0 <= b < |bits| && bits[b] == split[k][i]
            && Packed(bits[b := v], alloc, split[k := split[k][i := v]])
  {
    hide AllocBit, SplitBit, MetaBytes;
    assert SplitHeld(bits, split, k, i);
    var b := SplitBit(|split| - 1, k, i);
    var bits', split' := bits[b := v], split[k := split[k][i := v]];
    forall l: nat, j: nat | l < |alloc| && j < |alloc[l]| ensures AllocHeld(bits', alloc, l, j) {
      AllocBitsApart(|alloc| - 1, l, j, k, i);
      assert AllocHeld(bits, alloc, l, j);
    }
    forall l: nat, j: nat | 1 <= l < |split'| && j < |split'[l]| ensures SplitHeld(bits', split', l, j) {
      SplitBitsApart(|split| - 1, k, i, l, j);
      assert SplitHeld(bits, split, l, j);
    }
  }

  /** Tables of zeroes are clear rows. */
  lemma PackedClear(bits: seq<bool>, alloc: seq<seq<bool>>, split: seq<seq<bool>>)
    requires |alloc| > 0 && RowsFit(alloc, split, |alloc|) && IsClear(alloc, split)
    requires |bits| == 8 * MetaBytes(|alloc| - 1) && forall b :: 0 <= b < |bits| ==> !bits[b]
    ensures Packed(bits, alloc, split)
  {
    hide AllocBit, SplitBit, MetaBytes;
    forall k: nat, i: nat | k < |alloc| && i < |alloc[k]| ensures AllocHeld(bits, alloc, k, i) {
      AllocBitsApart(|alloc| - 1, k, i, k, i);
    }
    forall k: nat, i: nat | 1 <= k < |split| && i < |split[k]| ensures SplitHeld(bits, split, k, i) {
      SplitBitsApart(|split| - 1, k, i, k, i);
    }
  }
}
