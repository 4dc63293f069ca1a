/** Bit arrays packed eight to a byte: the bitmaps of kernel/buddy.c and the free bitmap of
    kernel/fs.c and mkfs/mkfs.c. */
module Bits {

  /** The mask of bit k of a byte. */
  function Mask(k: nat): bv8
    requires k < 8
  {
    1 << k
  }

  predicate Test(b: bv8, m: bv8) { b & m == m }
  function With(b: bv8, m: bv8): bv8 { b | m }
  function Without(b: bv8, m: bv8): bv8 { b & !m }

  /** Two single-bit masks: the same bit or different ones. */
  predicate Singles(m: bv8, n: bv8, same: bool) { n != 0 && (if same then m == n else m & n == 0 && m != n) }

  lemma Masks()
    ensures Mask(0) == 1 && Mask(1) == 2 && Mask(2) == 4 && Mask(3) == 8
    ensures Mask(4) == 16 && Mask(5) == 32 && Mask(6) == 64 && Mask(7) == 128
  {}

  lemma MasksApart(j: nat, k: nat)
    requires j < 8 && k < 8
    ensures Singles(Mask(j), Mask(k), j == k)
  {
    Masks();
    hide Mask;
    assert j == 0 || j == 1 || j == 2 || j == 3 || j == 4 || j == 5 || j == 6 || j == 7;
    assert k == 0 || k == 1 || k == 2 || k == 3 || k == 4 || k == 5 || k == 6 || k == 7;
  }

  /** Setting a bit of a byte is seen at that bit, and at no other; so is clearing one. */
  lemma SetTest(b: bv8, m: bv8, n: bv8, same: bool)
    requires Singles(m, n, same)
    ensures Test(With(b, m), n) <==> same || Test(b, n)
  {}

  lemma ClearTest(b: bv8, m: bv8, n: bv8, same: bool)
    requires Singles(m, n, same)
    ensures Test(Without(b, m), n) <==> !same && Test(b, n)
  {}

  lemma ZeroTest(m: bv8, n: bv8, same: bool)
    requires Singles(m, n, same)
    ensures !Test(0, n)
  {}

  /** The booleans a packed array stands for. */
  ghost function Bools(bytes: seq<bv8>): (r: seq<bool>)
    ensures |r| == 8 * |bytes| && forall i :: 0 <= i < |r| ==> r[i] == Test(bytes[i / 8], Mask(i % 8))
  {
    seq(8 * |bytes|, i requires 0 <= i < 8 * |bytes| => Test(bytes[i / 8], Mask(i % 8)))
  }

  /** One bit of the packed array is set, and no other changes. */
  lemma SetSeq(bytes: seq<bv8>, i: nat)
    requires i < 8 * |bytes|
    ensures Bools(bytes[i / 8 := With(bytes[i / 8], Mask(i % 8))]) == Bools(bytes)[i := true]
  {
    hide Test, Mask, With, Without, Singles;
    var t := bytes[i / 8 := With(bytes[i / 8], Mask(i % 8))];
    forall k | 0 <= k < 8 * |bytes| ensures Bools(t)[k] == Bools(bytes)[i := true][k] {
      MasksApart(i % 8, k % 8);
      SetTest(bytes[i / 8], Mask(i % 8), Mask(k % 8), i % 8 == k % 8);
    }
  }

  lemma ClearSeq(bytes: seq<bv8>, i: nat)
    requires i < 8 * |bytes|
    ensures Bools(bytes[i / 8 := Without(bytes[i / 8], Mask(i % 8))]) == Bools(bytes)[i := false]
  {
    hide Test, Mask, With, Without, Singles;
    var t := bytes[i / 8 := Without(bytes[i / 8], Mask(i % 8))];
    forall k | 0 <= k < 8 * |bytes| ensures Bools(t)[k] == Bools(bytes)[i := false][k] {
      MasksApart(i % 8, k % 8);
      ClearTest(bytes[i / 8], Mask(i % 8), Mask(k % 8), i % 8 == k % 8);
    }
  }

  class BitArray {
    const bytes: array<bv8>

    constructor (n: nat)
      ensures fresh(bytes) && bytes.Length == n && Bools(bytes[..]) == seq(8 * n, _ => false)
    {
      bytes := new bv8[n](_ => 0);
      new;
      hide Test, Mask, With, Without, Singles;
      forall i | 0 <= i < 8 * n ensures !Bools(bytes[..])[i] {
        MasksApart(0, i % 8);
        ZeroTest(Mask(0), Mask(i % 8), i % 8 == 0);
      }
    }

    /** bit_isset */
    method IsSet(i: nat) returns (r: bool)
      requires i < 8 * bytes.Length
      ensures r == Bools(bytes[..])[i]
    {
      return Test(bytes[i / 8], Mask(i % 8));
    }

    /** bit_set */
    method Set(i: nat)
      requires i < 8 * bytes.Length
      modifies bytes
      ensures Bools(bytes[..]) == Bools(old(bytes[..]))[i := true]
    {
      hide Bools, Mask, With, Without;
      SetSeq(bytes[..], i);
      bytes[i / 8] := With(bytes[i / 8], Mask(i % 8));
      assert bytes[..] == old(bytes[..])[i / 8 := With(old(bytes[i / 8]), Mask(i % 8))];
    }

    /** bit_clear */
    method Clear(i: nat)
      requires i < 8 * bytes.Length
      modifies bytes
      ensures Bools(bytes[..]) == Bools(old(bytes[..]))[i := false]
    {
      hide Bools, Mask, With, Without;
      ClearSeq(bytes[..], i);
      bytes[i / 8] := Without(bytes[i / 8], Mask(i % 8));
      assert bytes[..] == old(bytes[..])[i / 8 := Without(old(bytes[i / 8]), Mask(i % 8))];
    }
  }
}
