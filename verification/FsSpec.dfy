/** The on-disk file system of kernel/fs.c as a value: inodes, the free bitmap and the blocks, with
    the owner of each block in use. A block is 1024 bytes; an indirect block is read as 256
    little-endian 32-bit words. */
module FsSpec {

  const BSIZE := 1024
  const NDIRECT := 12
  const NINDIRECT := 256
  const MAXFILE := NDIRECT + NINDIRECT
  /** Block pointers of an inode: 12 direct ones, the indirect block, its 256 entries. */
  const NSLOTS := 269

  type Byte = b: int | 0 <= b < 256
  type Block = s: seq<Byte> | |s| == BSIZE witness seq(BSIZE, _ => 0)

  datatype Inode = Inode(typ: int, nlink: int, size: nat, addrs: seq<nat>)

  datatype Slot = Slot(n: nat, i: nat)

  /** `start` is the first data block; blocks before it are boot, super, log, inodes and bitmap. */
  datatype Fs = Fs(inodes: seq<Inode>, used: seq<bool>, blocks: seq<Block>, owner: map<nat, Slot>, start: nat)

  // ---- words of a block ----

  function Entry(b: Block, j: nat): (v: nat)
    requires j < NINDIRECT
  {
    (b[4 * j] as int) + 0x100 * (b[4 * j + 1] as int) + 0x1_0000 * (b[4 * j + 2] as int) +
    0x100_0000 * (b[4 * j + 3] as int)
  }

  function Store(b: Block, j: nat, v: nat): Block
    requires j < NINDIRECT && v < 0x1_0000_0000
  {
    b[4 * j := v % 0x100][4 * j + 1 := v / 0x100 % 0x100]
     [4 * j + 2 := v / 0x1_0000 % 0x100][4 * j + 3 := v / 0x100_0000]
  }

  function ZeroBlock(): Block { seq(BSIZE, _ => 0) }

  /** A 32-bit number is its four bytes. */
  lemma Digits(v: nat)
    requires v < 0x1_0000_0000
    ensures v == v % 0x100 + 0x100 * (v / 0x100 % 0x100) + 0x1_0000 * (v / 0x1_0000 % 0x100) +
                 0x100_0000 * (v / 0x100_0000)
    ensures v / 0x100_0000 < 0x100
  {
    var w := v / 0x100;
    var x := w / 0x100;
    assert v == 0x100 * w + v % 0x100 && w == 0x100 * x + w % 0x100 && x == 0x100 * (x / 0x100) + x % 0x100;
    assert v / 0x1_0000 == x && v / 0x100_0000 == x / 0x100;
  }

  /** The four bytes of the word, and the others. */
  lemma StoreBytes(b: Block, j: nat, v: nat)
    requires j < NINDIRECT && v < 0x1_0000_0000
    ensures var s := Store(b, j, v);
            && s[4 * j] == v % 0x100 && s[4 * j + 1] == v / 0x100 % 0x100
            && s[4 * j + 2] == v / 0x1_0000 % 0x100 && s[4 * j + 3] == v / 0x100_0000
            && forall i :: 0 <= i < BSIZE && !(4 * j <= i < 4 * j + 4) ==> s[i] == b[i]
  {}

  lemma StoreEntry(b: Block, j: nat, v: nat, k: nat)
    requires j < NINDIRECT && k < NINDIRECT && v < 0x1_0000_0000
    ensures Entry(Store(b, j, v), k) == if k == j then v else Entry(b, k)
    ensures Entry(ZeroBlock(), k) == 0
  {
    hide Store;
    StoreBytes(b, j, v);
    Digits(v);
    if k != j {
      assert 4 * k + 3 < 4 * j || 4 * j + 3 < 4 * k;
    }
  }

  // ---- pointers and owners ----

  /** What a pointer of inode n holds; an entry of a missing indirect block holds 0. */
  function Ptr(fs: Fs, n: nat, i: nat): nat
    requires n < |fs.inodes| && i < NSLOTS && |fs.inodes[n].addrs| == 13
  {
    if i <= NDIRECT then fs.inodes[n].addrs[i]
    else if fs.inodes[n].addrs[NDIRECT] < |fs.blocks| && fs.inodes[n].addrs[NDIRECT] != 0 then
      Entry(fs.blocks[fs.inodes[n].addrs[NDIRECT]], i - 13)
    else 0
  }

  ghost predicate Shape(fs: Fs) {
    && |fs.blocks| == |fs.used| < 0x1_0000_0000 && 0 < fs.start <= |fs.used|
    && forall n :: 0 <= n < |fs.inodes| ==> |fs.inodes[n].addrs| == 13
  }

  /** A pointer leads to a data block that this pointer owns. */
  ghost predicate PtrOk(fs: Fs, n: nat, i: nat)
    requires Shape(fs) && n < |fs.inodes| && i < NSLOTS
  {
    var p := Ptr(fs, n, i);
    p != 0 ==> fs.start <= p < |fs.used| && p in fs.owner && fs.owner[p] == Slot(n, i)
  }

  /** An owned block is a data block in use, and its owner points to it. */
  ghost predicate OwnerOk(fs: Fs, b: nat)
    requires Shape(fs) && b in fs.owner
  {
    var s := fs.owner[b];
    fs.start <= b < |fs.used| && fs.used[b] && s.n < |fs.inodes| && s.i < NSLOTS && Ptr(fs, s.n, s.i) == b
  }

  ghost predicate FreeInodeOk(fs: Fs, n: nat)
    requires Shape(fs) && n < |fs.inodes|
  {
    fs.inodes[n].typ == 0 ==> forall i :: 0 <= i < 13 ==> fs.inodes[n].addrs[i] == 0
  }

  ghost predicate Inv(fs: Fs) {
    && Shape(fs)
    && (forall n: nat, i: nat :: n < |fs.inodes| && i < NSLOTS ==> PtrOk(fs, n, i))
    && (forall b :: b in fs.owner ==> OwnerOk(fs, b))
    && (forall b :: fs.start <= b < |fs.used| && fs.used[b] ==> b in fs.owner)
    && (forall b :: 0 <= b < fs.start ==> fs.used[b])
    && (forall n: nat :: n < |fs.inodes| ==> FreeInodeOk(fs, n))
  }

  /** Block ownership, said without the owner map: the data blocks in use are exactly the blocks
      some pointer of some inode holds, and no two pointers hold the same block. */
  lemma ExactlyOneOwner(fs: Fs, b: nat)
    requires Inv(fs) && fs.start <= b < |fs.used|
    ensures fs.used[b] <==> exists n: nat, i: nat :: n < |fs.inodes| && i < NSLOTS && Ptr(fs, n, i) == b
    ensures forall n: nat, i: nat, n': nat, i': nat ::
      n < |fs.inodes| && i < NSLOTS && n' < |fs.inodes| && i' < NSLOTS && Ptr(fs, n, i) == b == Ptr(fs, n', i') ==>
          n == n' && i == i'
  {
    if fs.used[b] {
      assert OwnerOk(fs, b);
      assert Ptr(fs, fs.owner[b].n, fs.owner[b].i) == b;
    }
    forall n: nat, i: nat | n < |fs.inodes| && i < NSLOTS && Ptr(fs, n, i) == b
      ensures fs.used[b] && fs.owner[b] == Slot(n, i)
    {
      assert PtrOk(fs, n, i) && OwnerOk(fs, b);
    }
  }

  // ---- the operations on the disk ----

  function SetBlock(fs: Fs, b: nat, x: Block): Fs
    requires b < |fs.blocks|
  {
    Fs(fs.inodes, fs.used, fs.blocks[b := x], fs.owner, fs.start)
  }

  function WithPtr(ino: Inode, i: nat, v: nat): Inode
    requires i < |ino.addrs|
  {
    Inode(ino.typ, ino.nlink, ino.size, ino.addrs[i := v])
  }

  function SetPtr(fs: Fs, n: nat, i: nat, v: nat): Fs
    requires Shape(fs) && n < |fs.inodes| && i < NSLOTS && v < 0x1_0000_0000
    requires i > NDIRECT ==> fs.inodes[n].addrs[NDIRECT] < |fs.blocks|
  {
    if i <= NDIRECT then
      Fs(fs.inodes[n := WithPtr(fs.inodes[n], i, v)], fs.used, fs.blocks, fs.owner, fs.start)
    else
      SetBlock(fs, fs.inodes[n].addrs[NDIRECT], Store(fs.blocks[fs.inodes[n].addrs[NDIRECT]], i - 13, v))
  }

  /** balloc of block b, zeroed, for a pointer. */
  function Assign(fs: Fs, n: nat, i: nat, b: nat): Fs
    requires Shape(fs) && n < |fs.inodes| && i < NSLOTS && b < |fs.used|
    requires (i > NDIRECT ==> fs.inodes[n].addrs[NDIRECT] < |fs.blocks|)
  {
    SetPtr(Fs(fs.inodes, fs.used[b := true], fs.blocks[b := ZeroBlock()], fs.owner[b := Slot(n, i)], fs.start), n, i, b)
  }

  function Unuse(fs: Fs, b: nat): Fs
    requires b < |fs.used|
  {
    Fs(fs.inodes, fs.used[b := false], fs.blocks, fs.owner - {b}, fs.start)
  }

  /** bfree of the block of a pointer, which is cleared. */
  function Drop(fs: Fs, n: nat, i: nat): Fs
    requires Shape(fs) && n < |fs.inodes| && i < NSLOTS && Ptr(fs, n, i) < |fs.used|
    requires (i > NDIRECT ==> fs.inodes[n].addrs[NDIRECT] < |fs.blocks|)
  {
    SetPtr(Unuse(fs, Ptr(fs, n, i)), n, i, 0)
  }

  /** The pointer can be given a block: its inode is in use and, for an entry, has an indirect block. */
  ghost predicate Assignable(fs: Fs, n: nat, i: nat) {
    && Shape(fs) && n < |fs.inodes| && i < NSLOTS && fs.inodes[n].typ != 0 && Ptr(fs, n, i) == 0
    && (i > NDIRECT ==> 0 < fs.inodes[n].addrs[NDIRECT] < |fs.blocks|)
  }

  ghost predicate FreeBlock(fs: Fs, b: nat) {
    fs.start <= b < |fs.used| && !fs.used[b]
  }

  lemma PtrFacts(fs: Fs, n: nat, i: nat)
    requires Inv(fs) && n < |fs.inodes| && i < NSLOTS
    ensures PtrOk(fs, n, i) && (Ptr(fs, n, i) != 0 ==> OwnerOk(fs, Ptr(fs, n, i)))
  {
    hide PtrOk, OwnerOk, Ptr;
    assert PtrOk(fs, n, i);
    assert PtrOk(fs, n, i) ==> (Ptr(fs, n, i) != 0 ==> Ptr(fs, n, i) in fs.owner) by { PtrIn(fs, n, i); }
  }

  lemma PtrIn(fs: Fs, n: nat, i: nat)
    requires Shape(fs) && n < |fs.inodes| && i < NSLOTS
    ensures PtrOk(fs, n, i) && Ptr(fs, n, i) != 0 ==> Ptr(fs, n, i) in fs.owner
  {}

  /** One pointer changes, and no other. */
  lemma AssignPtr(fs: Fs, n: nat, i: nat, b: nat, m: nat, k: nat)
    requires Inv(fs) && Assignable(fs, n, i) && FreeBlock(fs, b) && m < |fs.inodes| && k < NSLOTS
    ensures var t := Assign(fs, n, i, b); Shape(t) && Ptr(t, m, k) == if m == n && k == i then b else Ptr(fs, m, k)
  {
    hide Entry, Store;
    PtrFacts(fs, m, NDIRECT);
    PtrFacts(fs, n, NDIRECT);
    if i > NDIRECT && k > NDIRECT { StoreEntry(fs.blocks[fs.inodes[n].addrs[NDIRECT]], i - 13, b, k - 13); }
    if k > NDIRECT { StoreEntry(ZeroBlock(), 0, 0, k - 13); }
  }

  lemma AssignKeeps(fs: Fs, n: nat, i: nat, b: nat)
    requires Inv(fs) && Assignable(fs, n, i) && FreeBlock(fs, b)
    ensures Inv(Assign(fs, n, i, b))
  {
    var t := Assign(fs, n, i, b);
    forall m: nat, k: nat | m < |t.inodes| && k < NSLOTS ensures PtrOk(t, m, k) {
      PtrFacts(fs, m, k);
      AssignPtr(fs, n, i, b, m, k);
    }
    forall c | c in t.owner ensures OwnerOk(t, c) {
      if c != b { assert OwnerOk(fs, c); }
      AssignPtr(fs, n, i, b, t.owner[c].n, t.owner[c].i);
    }
    forall m: nat | m < |t.inodes| ensures FreeInodeOk(t, m) {
      assert FreeInodeOk(fs, m);
    }
  }

  ghost predicate Droppable(fs: Fs, n: nat, i: nat) {
    && Shape(fs) && n < |fs.inodes| && i < NSLOTS && Ptr(fs, n, i) != 0
    && (i == NDIRECT ==> forall k :: NDIRECT < k < NSLOTS ==> Ptr(fs, n, k) == 0)
  }

  lemma DropPtr(fs: Fs, n: nat, i: nat, m: nat, k: nat)
    requires Inv(fs) && Droppable(fs, n, i) && m < |fs.inodes| && k < NSLOTS
    ensures PtrOk(fs, n, i) && Ptr(fs, n, i) < |fs.used| && (i > NDIRECT ==> fs.inodes[n].addrs[NDIRECT] < |fs.blocks|)
    ensures var t := Drop(fs, n, i); Shape(t) && Ptr(t, m, k) == if m == n && k == i then 0 else Ptr(fs, m, k)
  {
    hide Entry, Store;
    PtrFacts(fs, m, NDIRECT);
    PtrFacts(fs, n, NDIRECT);
    PtrFacts(fs, n, i);
    if i > NDIRECT && k > NDIRECT { StoreEntry(fs.blocks[fs.inodes[n].addrs[NDIRECT]], i - 13, 0, k - 13); }
  }

  lemma DropKeeps(fs: Fs, n: nat, i: nat)
    requires Inv(fs) && Droppable(fs, n, i)
    ensures Ptr(fs, n, i) < |fs.used| && (i > NDIRECT ==> fs.inodes[n].addrs[NDIRECT] < |fs.blocks|)
    ensures Inv(Drop(fs, n, i))
  {
    DropPtr(fs, n, i, n, i);
    var t := Drop(fs, n, i);
    forall m: nat, k: nat | m < |t.inodes| && k < NSLOTS ensures PtrOk(t, m, k) {
      PtrFacts(fs, m, k);
      DropPtr(fs, n, i, m, k);
    }
    forall c | c in t.owner ensures OwnerOk(t, c) {
      assert OwnerOk(fs, c);
      DropPtr(fs, n, i, t.owner[c].n, t.owner[c].i);
    }
    forall m: nat | m < |t.inodes| ensures FreeInodeOk(t, m) {
      assert FreeInodeOk(fs, m);
    }
  }

  /** A block that no inode uses as its indirect block. */
  ghost predicate NotIndirect(fs: Fs, b: nat)
    requires Shape(fs)
  {
    forall m: nat :: m < |fs.inodes| && fs.inodes[m].addrs[NDIRECT] == b ==> b == 0
  }

  lemma SetBlockPtr(fs: Fs, b: nat, x: Block, m: nat, k: nat)
    requires Shape(fs) && NotIndirect(fs, b) && b < |fs.blocks| && m < |fs.inodes| && k < NSLOTS
    ensures var t := SetBlock(fs, b, x); Shape(t) && Ptr(t, m, k) == Ptr(fs, m, k)
  {
    hide Entry;
  }

  lemma SetBlockKeeps(fs: Fs, b: nat, x: Block)
    requires Inv(fs) && NotIndirect(fs, b) && b < |fs.blocks|
    ensures Inv(SetBlock(fs, b, x))
  {
    var t := SetBlock(fs, b, x);
    forall m: nat, k: nat | m < |t.inodes| && k < NSLOTS ensures PtrOk(t, m, k) {
      assert PtrOk(fs, m, k);
      SetBlockPtr(fs, b, x, m, k);
    }
    forall c | c in t.owner ensures OwnerOk(t, c) {
      assert OwnerOk(fs, c);
      SetBlockPtr(fs, b, x, t.owner[c].n, t.owner[c].i);
    }
    forall m: nat | m < |t.inodes| ensures FreeInodeOk(t, m) {
      assert FreeInodeOk(fs, m);
    }
  }

  // ---- file contents ----

  /** The pointer of block bn of a file. */
  function SlotOf(bn: nat): nat { if bn < NDIRECT then bn else bn + 1 }

  ghost predicate HasByte(fs: Fs, n: nat, o: nat) {
    Shape(fs) && n < |fs.inodes| && o < MAXFILE * BSIZE && 0 < Ptr(fs, n, SlotOf(o / BSIZE)) < |fs.blocks|
  }

  /** A byte of a file; where there is no block, there is a hole that reads as zero. */
  ghost function ByteAt(fs: Fs, n: nat, o: nat): Byte {
    if HasByte(fs, n, o) then fs.blocks[Ptr(fs, n, SlotOf(o / BSIZE))][o % BSIZE] else 0
  }

  /** Every block below the size is there. */
  ghost predicate Dense(fs: Fs, n: nat) {
    && Shape(fs) && n < |fs.inodes| && fs.inodes[n].size <= MAXFILE * BSIZE
    && forall o: nat :: o < fs.inodes[n].size ==> HasByte(fs, n, o)
  }

  ghost function Contents(fs: Fs, n: nat): (s: seq<Byte>)
    requires n < |fs.inodes|
    ensures |s| == fs.inodes[n].size
  {
    seq(fs.inodes[n].size, o requires 0 <= o < fs.inodes[n].size => ByteAt(fs, n, o))
  }

  ghost predicate SameByte(fs: Fs, t: Fs, m: nat, o: nat) {
    (HasByte(fs, m, o) ==> HasByte(t, m, o)) && ByteAt(t, m, o) == ByteAt(fs, m, o)
  }

  lemma ShapeOf(f: Fs)
    requires Inv(f)
    ensures Shape(f)
  {}

  lemma HasByteOf(u: Fs, n: nat, o: nat)
    requires Shape(u) && n < |u.inodes| && o < MAXFILE * BSIZE && 0 < Ptr(u, n, SlotOf(o / BSIZE)) < |u.blocks|
    ensures HasByte(u, n, o)
  {}

  /** From fs to t, the bytes x were put at offset off of file n; every other byte of every file is
      as it was. */
  ghost predicate Wrote(fs: Fs, t: Fs, n: nat, off: nat, x: seq<Byte>) {
    && (forall m: nat, o: nat :: !(m == n && off <= o < off + |x|) ==> SameByte(fs, t, m, o))
    && (forall o: nat :: off <= o < off + |x| ==> HasByte(t, n, o) && ByteAt(t, n, o) == x[o - off])
  }

  lemma WroteTrans(fs: Fs, t: Fs, u: Fs, n: nat, off: nat, x: seq<Byte>, y: seq<Byte>)
    requires Wrote(fs, t, n, off, x) && Wrote(t, u, n, off + |x|, y)
    ensures Wrote(fs, u, n, off, x + y)
  {
    hide HasByte, ByteAt;
    forall m: nat, o: nat | !(m == n && off <= o < off + |x + y|) ensures SameByte(fs, u, m, o) {
      assert SameByte(fs, t, m, o) && SameByte(t, u, m, o);
    }
    forall o: nat | off <= o < off + |x + y| ensures HasByte(u, n, o) && ByteAt(u, n, o) == (x + y)[o - off] {
      if o < off + |x| { assert SameByte(t, u, n, o); }
    }
  }

  /** A new block changes no byte there was. */
  lemma AssignWrote(fs: Fs, n: nat, i: nat, b: nat, off: nat)
    requires Inv(fs) && Assignable(fs, n, i) && FreeBlock(fs, b)
    ensures Wrote(fs, Assign(fs, n, i, b), n, off, [])
  {
    var t := Assign(fs, n, i, b);
    AssignPtr(fs, n, i, b, n, i);
    forall m: nat, o: nat ensures SameByte(fs, t, m, o) {
      if m < |fs.inodes| && o < MAXFILE * BSIZE {
        AssignPtr(fs, n, i, b, m, SlotOf(o / BSIZE));
        PtrFacts(fs, m, SlotOf(o / BSIZE));
        PtrFacts(fs, n, NDIRECT);
        hide Inv, Entry, Store;
      }
    }
  }

  function Splice(s: Block, at: nat, x: seq<Byte>): Block
    requires at + |x| <= BSIZE
  {
    s[..at] + x + s[at + |x|..]
  }

  /** A data block of a file is the indirect block of none. */
  lemma DataBlock(fs: Fs, n: nat, bn: nat)
    requires Inv(fs) && n < |fs.inodes| && bn < MAXFILE && Ptr(fs, n, SlotOf(bn)) != 0
    ensures NotIndirect(fs, Ptr(fs, n, SlotOf(bn))) && Ptr(fs, n, SlotOf(bn)) < |fs.blocks|
  {
    PtrFacts(fs, n, SlotOf(bn));
    forall m: nat | m < |fs.inodes| && fs.inodes[m].addrs[NDIRECT] == Ptr(fs, n, SlotOf(bn)) ensures false {
      PtrFacts(fs, m, NDIRECT);
    }
  }

  /** Writing part of a block of a file writes those bytes of the file. */
  lemma SpliceWrote(fs: Fs, n: nat, off: nat, x: seq<Byte>)
    requires Inv(fs) && n < |fs.inodes| && off < MAXFILE * BSIZE && off % BSIZE + |x| <= BSIZE && HasByte(fs, n, off)
    ensures var b := Ptr(fs, n, SlotOf(off / BSIZE));
      Wrote(fs, SetBlock(fs, b, Splice(fs.blocks[b], off % BSIZE, x)), n, off, x)
  {
    var b := Ptr(fs, n, SlotOf(off / BSIZE));
    var t := SetBlock(fs, b, Splice(fs.blocks[b], off % BSIZE, x));
    DataBlock(fs, n, off / BSIZE);
    forall m: nat, o: nat | !(m == n && off <= o < off + |x|) ensures SameByte(fs, t, m, o) {
      if m < |fs.inodes| && o < MAXFILE * BSIZE {
        SetBlockPtr(fs, b, Splice(fs.blocks[b], off % BSIZE, x), m, SlotOf(o / BSIZE));
        PtrFacts(fs, m, SlotOf(o / BSIZE));
        PtrFacts(fs, n, SlotOf(off / BSIZE));
        SameBlock(o, off);
        hide Inv, Ptr;
      }
    }
    forall o: nat | off <= o < off + |x| ensures HasByte(t, n, o) && ByteAt(t, n, o) == x[o - off] {
      assert o / BSIZE == off / BSIZE && o % BSIZE == off % BSIZE + (o - off);
      SetBlockPtr(fs, b, Splice(fs.blocks[b], off % BSIZE, x), n, SlotOf(o / BSIZE));
    }
  }

  lemma SameBlock(o: nat, off: nat)
    ensures SlotOf(o / BSIZE) == SlotOf(off / BSIZE) ==> o / BSIZE == off / BSIZE && o - off == o % BSIZE - off % BSIZE
  {}

  // ---- what bmap and itrunc may change ----

  predicate KeptBesides(a: Inode, b: Inode) {
    b.typ == a.typ && b.nlink == a.nlink && b.size == a.size && |b.addrs| == |a.addrs|
  }

  /** Inode a is b without some of its pointers. */
  ghost predicate Lags(a: Inode, b: Inode) {
    KeptBesides(a, b) && forall i :: 0 <= i < |a.addrs| ==> a.addrs[i] == 0 || a.addrs[i] == b.addrs[i]
  }

  function WithInode(f: Fs, n: nat, a: Inode, o: map<nat, Slot>): Fs
    requires n < |f.inodes|
  {
    Fs(f.inodes[n := a], f.used, f.blocks, o, f.start)
  }

  lemma LagPtr(f: Fs, n: nat, a: Inode, o: map<nat, Slot>, m: nat, k: nat)
    requires Shape(f) && n < |f.inodes| && Lags(a, f.inodes[n]) && m < |f.inodes| && k < NSLOTS
    ensures var g := WithInode(f, n, a, o);
            Shape(g) && Ptr(g, m, k) in {0, Ptr(f, m, k)} && (m != n ==> Ptr(g, m, k) == Ptr(f, m, k))
  {}

  /** A block whose only pointer is not in the inode on disk is in none there. */
  lemma LagLoses(f: Fs, n: nat, a: Inode, o: map<nat, Slot>, i: nat, m: nat, k: nat)
    requires Inv(f) && n < |f.inodes| && Lags(a, f.inodes[n]) && i < 13 && |f.inodes[n].addrs| == 13
    requires a.addrs[i] != f.inodes[n].addrs[i] && m < |f.inodes| && k < NSLOTS
    ensures var p := f.inodes[n].addrs[i];
            && p != 0 && f.start <= p < |f.used| && f.used[p]
            && Shape(WithInode(f, n, a, o)) && Ptr(WithInode(f, n, a, o), m, k) != p
  {
    assert PtrOk(f, n, i) && PtrOk(f, m, k);
    assert Ptr(f, n, i) in f.owner && OwnerOk(f, Ptr(f, n, i));
    LagPtr(f, n, a, o, m, k);
    LagPtr(f, n, a, o, n, i);
  }

  lemma LagBreaks(f: Fs, n: nat, a: Inode, o: map<nat, Slot>, i: nat)
    requires Inv(f) && n < |f.inodes| && Lags(a, f.inodes[n]) && i < 13 && |f.inodes[n].addrs| == 13
    requires a.addrs[i] != f.inodes[n].addrs[i]
    ensures !Inv(WithInode(f, n, a, o))
  {
    var g, p := WithInode(f, n, a, o), f.inodes[n].addrs[i];
    LagLoses(f, n, a, o, i, n, i);
    forall m: nat, k: nat | m < |f.inodes| && k < NSLOTS ensures Shape(g) && Ptr(g, m, k) != p {
      LagLoses(f, n, a, o, i, m, k);
    }
    assert Inv(g) ==> p in o && OwnerOk(g, p);
  }

  /** When the inode on disk lacks pointers of the inode in memory, block ownership holds of the disk
      exactly if it lacks none. */
  lemma LagIff(f: Fs, n: nat, a: Inode)
    requires Inv(f) && n < |f.inodes| && Lags(a, f.inodes[n])
    ensures (exists o :: Inv(WithInode(f, n, a, o))) <==> a == f.inodes[n]
  {
    if a == f.inodes[n] {
      assert f.inodes[n := a] == f.inodes;
      assert WithInode(f, n, a, f.owner) == f;
    } else {
      var i :| 0 <= i < |a.addrs| && a.addrs[i] != f.inodes[n].addrs[i];
      forall o ensures !Inv(WithInode(f, n, a, o)) {
        LagBreaks(f, n, a, o, i);
      }
    }
  }

  /** From f to t, only file n may have gained blocks; every byte there was is as it was. */
  ghost predicate Extends(f: Fs, t: Fs, n: nat) {
    && Wrote(f, t, n, 0, []) && |t.inodes| == |f.inodes| && n < |f.inodes|
    && (forall m :: 0 <= m < |f.inodes| && m != n ==> t.inodes[m] == f.inodes[m])
    && KeptBesides(f.inodes[n], t.inodes[n])
  }

  lemma ExtendsSame(f: Fs, n: nat)
    requires n < |f.inodes|
    ensures Extends(f, f, n)
  {}

  lemma ExtendsTrans(f: Fs, t: Fs, u: Fs, n: nat)
    requires Extends(f, t, n) && Extends(t, u, n)
    ensures Extends(f, u, n)
  {
    var none: seq<Byte> := [];
    WroteTrans(f, t, u, n, 0, none, none);
    hide Wrote;
    assert none + none == none;
  }

  lemma AssignExtends(f: Fs, n: nat, i: nat, b: nat)
    requires Inv(f) && Assignable(f, n, i) && FreeBlock(f, b)
    ensures Extends(f, Assign(f, n, i, b), n)
  {
    AssignWrote(f, n, i, b, 0);
  }

  /** From f to t, blocks of file n were given back; nothing changed for the others. */
  ghost predicate Trims(f: Fs, t: Fs, n: nat) {
    && |t.inodes| == |f.inodes| && n < |f.inodes| && t.start == f.start
    && (forall m: nat, o: nat :: m != n ==> SameByte(f, t, m, o))
    && (forall m :: 0 <= m < |f.inodes| && m != n ==> t.inodes[m] == f.inodes[m])
    && KeptBesides(f.inodes[n], t.inodes[n])
    && (forall b :: b in t.owner ==> b in f.owner && t.owner[b] == f.owner[b])
    && (forall b :: b in f.owner && f.owner[b].n != n ==> b in t.owner)
  }

  lemma TrimsSame(f: Fs, n: nat)
    requires n < |f.inodes|
    ensures Trims(f, f, n)
  {}

  lemma TrimsTrans(f: Fs, t: Fs, u: Fs, n: nat)
    requires Trims(f, t, n) && Trims(t, u, n)
    ensures Trims(f, u, n)
  {
    hide HasByte, ByteAt;
    forall m: nat, o: nat | m != n ensures SameByte(f, u, m, o) {
      assert SameByte(f, t, m, o) && SameByte(t, u, m, o);
    }
  }

  lemma DropTrims(f: Fs, n: nat, i: nat)
    requires Inv(f) && Droppable(f, n, i)
    ensures Ptr(f, n, i) < |f.used| && (i > NDIRECT ==> f.inodes[n].addrs[NDIRECT] < |f.blocks|)
    ensures Trims(f, Drop(f, n, i), n)
  {
    DropPtr(f, n, i, n, i);
    var t := Drop(f, n, i);
    forall m: nat, o: nat | m != n ensures SameByte(f, t, m, o) {
      if m < |f.inodes| && o < MAXFILE * BSIZE {
        DropPtr(f, n, i, m, SlotOf(o / BSIZE));
        PtrFacts(f, m, SlotOf(o / BSIZE));
        PtrFacts(f, n, NDIRECT);
        hide Inv, Entry, Store;
      }
    }
  }

  /** The content of a block that nothing points to does not matter. */
  lemma UnownedTrims(f: Fs, n: nat, b: nat, x: Block)
    requires Inv(f) && n < |f.inodes| && b < |f.blocks| && b !in f.owner && b != 0
    ensures Inv(SetBlock(f, b, x)) && Trims(f, SetBlock(f, b, x), n)
  {
    forall m: nat | m < |f.inodes| && f.inodes[m].addrs[NDIRECT] == b ensures false {
      PtrFacts(f, m, NDIRECT);
    }
    SetBlockKeeps(f, b, x);
    var t := SetBlock(f, b, x);
    forall m: nat, o: nat | m != n ensures SameByte(f, t, m, o) {
      if m < |f.inodes| && o < MAXFILE * BSIZE {
        SetBlockPtr(f, b, x, m, SlotOf(o / BSIZE));
        PtrFacts(f, m, SlotOf(o / BSIZE));
      }
    }
  }

  ghost predicate NoPtrs(f: Fs, n: nat)
    requires Shape(f) && n < |f.inodes|
  {
    forall i: nat :: i < NSLOTS ==> Ptr(f, n, i) == 0
  }

  /** A file without pointers owns nothing: exactly its blocks were given back. */
  lemma TrimmedOwner(f: Fs, t: Fs, n: nat)
    requires Trims(f, t, n) && Inv(t) && NoPtrs(t, n)
    ensures t.owner == map b | b in f.owner && f.owner[b].n != n :: f.owner[b]
  {
    forall b | b in t.owner ensures f.owner[b].n != n {
      assert OwnerOk(t, b);
    }
  }

  // ---- what writei changes ----

  /** From f to t, x was written at off of file n, whose size is not yet updated. */
  ghost predicate Writes(f: Fs, t: Fs, n: nat, off: nat, x: seq<Byte>) {
    && Wrote(f, t, n, off, x) && |t.inodes| == |f.inodes| && n < |f.inodes|
    && (forall m :: 0 <= m < |f.inodes| && m != n ==> t.inodes[m] == f.inodes[m])
    && KeptBesides(f.inodes[n], t.inodes[n])
  }

  lemma WritesStart(f: Fs, n: nat, off: nat)
    requires n < |f.inodes|
    ensures Writes(f, f, n, off, [])
  {}

  /** One block's worth more. */
  lemma WritesMore(f: Fs, t: Fs, u: Fs, n: nat, off: nat, x: seq<Byte>, y: seq<Byte>)
    requires Writes(f, t, n, off, x) && Extends(t, u, n) && Inv(u) && n < |u.inodes|
    requires off + |x| < MAXFILE * BSIZE && (off + |x|) % BSIZE + |y| <= BSIZE && HasByte(u, n, off + |x|)
    ensures var b := Ptr(u, n, SlotOf((off + |x|) / BSIZE));
      NotIndirect(u, b) && b < |u.blocks|
        && Writes(f, SetBlock(u, b, Splice(u.blocks[b], (off + |x|) % BSIZE, y)), n, off, x + y)
  {
    hide Wrote, Inv, Ptr, Splice;
    var b := Ptr(u, n, SlotOf((off + |x|) / BSIZE));
    var v := SetBlock(u, b, Splice(u.blocks[b], (off + |x|) % BSIZE, y));
    DataBlock(u, n, (off + |x|) / BSIZE);
    SpliceWrote(u, n, off + |x|, y);
    WroteShift(t, u, n, 0, off + |x|);
    WroteTrans(t, u, v, n, off + |x|, [], y);
    assert [] + y == y;
    WroteTrans(f, t, v, n, off, x, y);
  }

  lemma WroteShift(f: Fs, t: Fs, n: nat, off: nat, off': nat)
    requires Wrote(f, t, n, off, [])
    ensures Wrote(f, t, n, off', [])
  {}

  function WithSize(f: Fs, n: nat, size: nat): Fs
    requires n < |f.inodes|
  {
    Fs(f.inodes[n := Inode(f.inodes[n].typ, f.inodes[n].nlink, size, f.inodes[n].addrs)], f.used, f.blocks, f.owner,
       f.start)
  }

  lemma WithSizePtr(f: Fs, n: nat, size: nat, m: nat, i: nat)
    requires Shape(f) && n < |f.inodes| && m < |f.inodes| && i < NSLOTS
    ensures Shape(WithSize(f, n, size)) && Ptr(WithSize(f, n, size), m, i) == Ptr(f, m, i)
  {}

  lemma WithSizeKeeps(f: Fs, n: nat, size: nat)
    requires Inv(f) && n < |f.inodes|
    ensures Inv(WithSize(f, n, size))
  {
    var t := WithSize(f, n, size);
    forall m: nat, k: nat | m < |t.inodes| && k < NSLOTS ensures PtrOk(t, m, k) {
      assert PtrOk(f, m, k);
      WithSizePtr(f, n, size, m, k);
    }
    forall c | c in t.owner ensures OwnerOk(t, c) {
      assert OwnerOk(f, c);
      WithSizePtr(f, n, size, f.owner[c].n, f.owner[c].i);
    }
    forall m: nat | m < |t.inodes| ensures FreeInodeOk(t, m) {
      assert FreeInodeOk(f, m);
    }
  }

  lemma WithSizeByte(f: Fs, n: nat, size: nat, m: nat, o: nat)
    requires Shape(f) && n < |f.inodes|
    ensures (HasByte(WithSize(f, n, size), m, o) <==> HasByte(f, m, o))
    ensures ByteAt(WithSize(f, n, size), m, o) == ByteAt(f, m, o)
  {
    WithSizePtr(f, n, size, n, 0);
    if m < |f.inodes| && o < MAXFILE * BSIZE { WithSizePtr(f, n, size, m, SlotOf(o / BSIZE)); }
  }

  /** The contents after x is written at off, at most the size. */
  function SpliceFile(c: seq<Byte>, off: nat, x: seq<Byte>): seq<Byte>
    requires off <= |c|
  {
    c[..off] + x + (if off + |x| < |c| then c[off + |x|..] else [])
  }

  /** The contents are spliced, holes or not; a file without holes keeps having none. */
  lemma WritesContents(f: Fs, t: Fs, n: nat, off: nat, x: seq<Byte>)
    requires Writes(f, t, n, off, x) && off <= f.inodes[n].size && off + |x| <= MAXFILE * BSIZE && Shape(t)
    ensures var size := if off + |x| > f.inodes[n].size then off + |x| else f.inodes[n].size;
      var u := WithSize(t, n, size);
      Contents(u, n) == SpliceFile(Contents(f, n), off, x) && (Dense(f, n) ==> Dense(u, n))
  {
    var size := if off + |x| > f.inodes[n].size then off + |x| else f.inodes[n].size;
    var u := WithSize(t, n, size);
    hide HasByte, ByteAt;
    forall o: nat | o < size
      ensures (Dense(f, n) ==> HasByte(u, n, o)) && ByteAt(u, n, o) == SpliceFile(Contents(f, n), off, x)[o]
    {
      assert !(off <= o < off + |x|) ==> SameByte(f, t, n, o);
      WithSizeByte(t, n, size, n, o);
    }
    assert Shape(u) by { WithSizePtr(t, n, size, n, 0); }
    assert Contents(u, n) == SpliceFile(Contents(f, n), off, x);
  }

  /** The file reads as it did, and has no hole that it had not. */
  ghost predicate SameFile(f: Fs, t: Fs, m: nat) {
    m < |f.inodes| && m < |t.inodes| ==> Contents(t, m) == Contents(f, m) && (Dense(f, m) ==> Dense(t, m))
  }

  /** A file with the same bytes and the same size. */
  lemma SameBytesSize(f: Fs, t: Fs, m: nat)
    requires (forall o: nat :: SameByte(f, t, m, o)) && m < |f.inodes| && m < |t.inodes|
    requires t.inodes[m].size == f.inodes[m].size && Shape(t)
    ensures SameFile(f, t, m)
  {
    hide HasByte, ByteAt;
    forall o: nat | o < f.inodes[m].size
      ensures (HasByte(f, m, o) ==> HasByte(t, m, o)) && ByteAt(t, m, o) == ByteAt(f, m, o)
    {
      assert SameByte(f, t, m, o);
    }
    assert Contents(t, m) == Contents(f, m);
  }

  lemma WritesOthers(f: Fs, t: Fs, n: nat, off: nat, x: seq<Byte>, size: nat)
    requires Writes(f, t, n, off, x) && Shape(t)
    ensures forall m: nat :: m < |f.inodes| && m != n ==> SameFile(f, WithSize(t, n, size), m)
  {
    var u := WithSize(t, n, size);
    WithSizePtr(t, n, size, n, 0);
    hide HasByte, ByteAt;
    forall m: nat | m < |f.inodes| && m != n ensures SameFile(f, u, m) {
      forall o: nat ensures SameByte(f, u, m, o) {
        assert SameByte(f, t, m, o);
        WithSizeByte(t, n, size, m, o);
      }
      SameBytesSize(f, u, m);
    }
  }

  /** What bmap may change leaves every file as it reads. */
  lemma ExtendsContents(f: Fs, t: Fs, n: nat)
    requires Extends(f, t, n) && Shape(t)
    ensures forall m: nat :: m < |f.inodes| ==> SameFile(f, t, m)
  {
    hide HasByte, ByteAt;
    forall m: nat | m < |f.inodes| ensures SameFile(f, t, m) {
      forall o: nat ensures SameByte(f, t, m, o) {}
      SameBytesSize(f, t, m);
    }
  }

  /** A free inode is put to use. */
  lemma NewInodeKeeps(f: Fs, n: nat, typ: int, nlink: int)
    requires Inv(f) && n < |f.inodes| && f.inodes[n].typ == 0 && typ != 0
    ensures Inv(Fs(f.inodes[n := Inode(typ, nlink, 0, seq(13, _ => 0))], f.used, f.blocks, f.owner, f.start))
  {
    var t := Fs(f.inodes[n := Inode(typ, nlink, 0, seq(13, _ => 0))], f.used, f.blocks, f.owner, f.start);
    assert FreeInodeOk(f, n);
    forall m: nat, k: nat | m < |t.inodes| && k < NSLOTS ensures PtrOk(t, m, k) && Ptr(t, m, k) == Ptr(f, m, k) {
      assert PtrOk(f, m, k);
    }
    forall c | c in t.owner ensures OwnerOk(t, c) {
      assert OwnerOk(f, c);
    }
    forall m: nat | m < |t.inodes| ensures FreeInodeOk(t, m) {
      assert FreeInodeOk(f, m);
    }
  }

  /** What was written is read back, and the rest of the file is as it was. */
  lemma SpliceRead(c: seq<Byte>, off: nat, x: seq<Byte>, o: nat)
    requires off <= |c| && o < |SpliceFile(c, off, x)|
    ensures SpliceFile(c, off, x)[off..off + |x|] == x
    ensures |SpliceFile(c, off, x)| == if off + |x| > |c| then off + |x| else |c|
    ensures !(off <= o < off + |x|) ==> o < |c| && SpliceFile(c, off, x)[o] == c[o]
  {}
}
