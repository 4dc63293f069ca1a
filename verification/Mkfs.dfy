/** mkfs/mkfs.c: building the image of a file system. Blocks are handed out in order from the first
    one after the metadata, and the bitmap is written last. */
module Mkfs {
  import opened FsSpec

  const NINODES := 200
  const FSSIZE := 2000
  /** The log as main() makes it: LOGSIZE blocks. */
  const LOGBLOCKS := 30
  const IPB := 16
  const BPB := 8192

  /** The regions of the disk for any sizes: boot block, super block, log, inodes, bitmap, data. */
  function NInodeBlocks(ninodes: nat): nat { ninodes / IPB + 1 }
  function NBitmap(fssize: nat): nat { fssize / BPB + 1 }
  function InodeStart(nlog: nat): nat { 2 + nlog }
  function BmapStart(nlog: nat, ninodes: nat): nat { 2 + nlog + NInodeBlocks(ninodes) }
  function NMeta(nlog: nat, ninodes: nat, fssize: nat): nat { 2 + nlog + NInodeBlocks(ninodes) + NBitmap(fssize) }

  /** Where an inode and a bit of the bitmap are kept. */
  function IBlock(nlog: nat, inum: nat): nat { inum / IPB + InodeStart(nlog) }
  function BBlock(nlog: nat, ninodes: nat, b: nat): nat { b / BPB + BmapStart(nlog, ninodes) }

  /** Every inode and every bit of the bitmap is in its own region, clear of the log, and no pointer
      of any inode leads into the metadata. */
  lemma LayoutFits(f: Fs, nlog: nat, ninodes: nat, inum: nat, b: nat, n: nat, i: nat)
    requires Inv(f) && f.start == NMeta(nlog, ninodes, |f.used|) && |f.inodes| <= ninodes
    requires inum < ninodes && b < |f.used| && n < |f.inodes| && i < NSLOTS
    ensures 2 + nlog <= IBlock(nlog, inum) < BBlock(nlog, ninodes, b) < f.start <= |f.used|
    ensures Ptr(f, n, i) != 0 ==> BBlock(nlog, ninodes, b) < Ptr(f, n, i) < |f.used|
  {
    PtrFacts(f, n, i);
  }

  function UsedBelow(freeblock: nat, size: nat): (u: seq<bool>)
    ensures |u| == size
  {
    seq(size, b => b < freeblock)
  }

  /** No block of file n lies beyond its first `end` bytes. */
  ghost predicate Tight(f: Fs, n: nat, end: nat) {
    forall o: nat :: HasByte(f, n, o) ==> o / BSIZE * BSIZE < end
  }

  /** From f to t, file n gained no block but number fbn. */
  ghost predicate Gains(f: Fs, t: Fs, n: nat, fbn: nat) {
    forall m: nat, o: nat :: HasByte(t, m, o) ==> HasByte(f, m, o) || (m == n && o / BSIZE == fbn)
  }

  /** From f to t, no file but n gained a block. */
  ghost predicate GainsOnly(f: Fs, t: Fs, n: nat) {
    forall m: nat, o: nat :: m != n && HasByte(t, m, o) ==> HasByte(f, m, o)
  }

  // ---- how many blocks a file takes ----

  /** The blocks of a file of that size: its data, and the indirect block if it has one. */
  function Blocks(size: nat): nat {
    (size + BSIZE - 1) / BSIZE + if size > NDIRECT * BSIZE then 1 else 0
  }

  /** The blocks that byte number `at`, the first past the end, takes when it is written. */
  function Takes(at: nat): nat {
    if at % BSIZE != 0 then 0 else if at == NDIRECT * BSIZE then 2 else 1
  }

  lemma BlocksStep(at: nat, k: nat)
    requires 0 < k <= BSIZE - at % BSIZE
    ensures Blocks(at + k) == Blocks(at) + Takes(at)
  {
    assert (at + k + BSIZE - 1) / BSIZE == at / BSIZE + 1;
    assert (at + BSIZE - 1) / BSIZE == if at % BSIZE == 0 then at / BSIZE else at / BSIZE + 1;
  }

  lemma BlocksMore(a: nat, b: nat)
    requires a <= b
    ensures Blocks(a) <= Blocks(b)
  {}

  function TotalBlocks(files: seq<seq<Byte>>): nat {
    if files == [] then 0 else TotalBlocks(files[..|files| - 1]) + Blocks(|files[|files| - 1]|)
  }

  lemma {:induction false} TotalMore(files: seq<seq<Byte>>, i: nat)
    requires i <= |files|
    ensures TotalBlocks(files[..i]) <= TotalBlocks(files)
    ensures i < |files| ==> TotalBlocks(files[..i + 1]) == TotalBlocks(files[..i]) + Blocks(|files[i]|)
    decreases |files|
  {
    if i == |files| {
      assert files[..i] == files;
    } else {
      assert files[..i + 1][..i] == files[..i];
      TotalMore(files[..|files| - 1], i);
      assert files[..|files| - 1][..i] == files[..i];
    }
  }

  /** The last block of a file of `at` bytes is there, and its indirect block only if it is needed. */
  ghost predicate Ends(f: Fs, n: nat, at: nat) {
    && Shape(f) && n < |f.inodes|
    && (at % BSIZE != 0 ==> HasByte(f, n, at - 1))
    && (f.inodes[n].addrs[NDIRECT] != 0 <==> at > NDIRECT * BSIZE)
  }

  /** So what the next byte takes can be read off the pointers. */
  lemma EndsTakes(f: Fs, n: nat, at: nat)
    requires Inv(f) && Ends(f, n, at) && Tight(f, n, at) && at < MAXFILE * BSIZE
    ensures Takes(at) == (if Ptr(f, n, SlotOf(at / BSIZE)) == 0 then 1 else 0)
                       + (if at / BSIZE >= NDIRECT && f.inodes[n].addrs[NDIRECT] == 0 then 1 else 0)
  {
    PtrFacts(f, n, SlotOf(at / BSIZE));
    if at % BSIZE != 0 {
      assert (at - 1) / BSIZE == at / BSIZE && HasByte(f, n, at - 1);
    } else {
      assert !HasByte(f, n, at);
    }
  }

  class Image {
    var inodes: seq<Inode>
    var blocks: seq<Block>
    var freeblock: nat
    var freeinode: nat
    const start: nat
    ghost var owner: map<nat, Slot>

    /** The file system the image will be. */
    ghost function F(): Fs
      reads this
    {
      Fs(inodes, UsedBelow(freeblock, |blocks|), blocks, owner, start)
    }

    ghost predicate Valid()
      reads this
    {
      && Inv(F()) && start <= freeblock <= |blocks|
      && (forall b :: freeblock <= b < |blocks| ==> blocks[b] == ZeroBlock())
      && 1 <= freeinode <= |inodes| && (forall n :: freeinode <= n < |inodes| ==> inodes[n].typ == 0)
    }

    /** An image of zeroed blocks. */
    constructor (size: nat, ninodes: nat, start: nat)
      requires 0 < start <= size < 0x1_0000_0000 && ninodes > 0
      ensures Valid() && freeinode == 1 && freeblock == start == this.start && |blocks| == size && |inodes| == ninodes
      ensures forall n :: 0 <= n < ninodes ==> inodes[n] == Inode(0, 0, 0, seq(13, _ => 0))
    {
      inodes := seq(ninodes, _ => Inode(0, 0, 0, seq(13, _ => 0)));
      blocks := seq(size, _ => ZeroBlock());
      freeblock, freeinode := start, 1;
      this.start := start;
      owner := map[];
      new;
      EmptyInv(F());
    }

    method IAlloc(typ: int) returns (inum: nat)
      requires Valid() && typ != 0 && freeinode < |inodes|
      modifies this`inodes, this`freeinode
      ensures Valid() && inum == old(freeinode) && freeinode == inum + 1
      ensures inodes == old(inodes)[inum := Inode(typ, 1, 0, seq(13, _ => 0))]
    {
      inum := freeinode;
      freeinode := freeinode + 1;
      NewInodeKeeps(F(), inum, typ, 1);
      inodes := inodes[inum := Inode(typ, 1, 0, seq(13, _ => 0))];
    }

    // ---- iappend ----

    /** The image with inode n as `din`, the local copy iappend works on. */
    ghost function FD(n: nat, din: Inode): Fs
      reads this
    {
      Fs(if n < |inodes| then inodes[n := din] else inodes, UsedBelow(freeblock, |blocks|), blocks, owner, start)
    }

    ghost predicate Working(n: nat, din: Inode)
      reads this
    {
      && n < |inodes| && Inv(FD(n, din)) && start <= freeblock <= |blocks| && din.typ != 0
      && (forall b :: freeblock <= b < |blocks| ==> blocks[b] == ZeroBlock())
    }

    /** The next block of the image, for a pointer of the inode; false when the image is full. */
    method TakeDirect(n: nat, din: Inode, i: nat) returns (ok: bool, d: Inode)
      requires Working(n, din) && i <= NDIRECT && Assignable(FD(n, din), n, i)
      modifies this`freeblock, this`owner
      ensures Working(n, d) && (ok <==> old(freeblock) < |blocks|)
      ensures ok ==> FreeBlock(old(FD(n, din)), old(freeblock))
      ensures ok ==> FD(n, d) == Assign(old(FD(n, din)), n, i, old(freeblock))
      ensures !ok ==> d == din && FD(n, d) == old(FD(n, din)) && freeblock == |blocks|
      ensures ok ==> d == WithPtr(din, i, old(freeblock)) && freeblock == old(freeblock) + 1
    {
      ghost var f := FD(n, din);
      if freeblock == |blocks| {
        return false, din;
      }
      AssignKeeps(f, n, i, freeblock);
      d := Inode(din.typ, din.nlink, din.size, din.addrs[i := freeblock]);
      owner := owner[freeblock := Slot(n, i)];
      freeblock := freeblock + 1;
      TakeIs(f, n, i, freeblock - 1);
      assert FD(n, d) == Assign(f, n, i, freeblock - 1);
      return true, d;
    }

    /** The next block of the image, for an entry of the indirect block. */
    method TakeEntry(n: nat, din: Inode, j: nat) returns (ok: bool)
      requires Working(n, din) && j < NINDIRECT && Assignable(FD(n, din), n, 13 + j)
      modifies this`freeblock, this`owner, this`blocks
      ensures Working(n, din) && (ok <==> old(freeblock) < |blocks|) && |blocks| == old(|blocks|)
      ensures ok ==> FreeBlock(old(FD(n, din)), old(freeblock))
      ensures ok ==> FD(n, din) == Assign(old(FD(n, din)), n, 13 + j, old(freeblock))
      ensures ok ==> freeblock == old(freeblock) + 1
      ensures !ok ==> FD(n, din) == old(FD(n, din)) && freeblock == |blocks|
    {
      ghost var f := FD(n, din);
      if freeblock == |blocks| {
        return false;
      }
      AssignKeeps(f, n, 13 + j, freeblock);
      IndirectBelow(f, n, freeblock);
      TakeIs(f, n, 13 + j, freeblock);
      hide Inv, Store;
      var ib := din.addrs[NDIRECT];
      blocks := blocks[ib := Store(blocks[ib], j, freeblock)];
      owner := owner[freeblock := Slot(n, 13 + j)];
      freeblock := freeblock + 1;
      assert FD(n, din) == Assign(f, n, 13 + j, freeblock - 1);
      return true;
    }

    /** The block of file block fbn, taken if it is not there. */
    method Locate(n: nat, din: Inode, fbn: nat) returns (ok: bool, d: Inode, x: nat)
      requires Working(n, din) && fbn < MAXFILE
      modifies this`freeblock, this`owner, this`blocks
      ensures Working(n, d) && |blocks| == old(|blocks|) && Extends(old(FD(n, din)), FD(n, d), n)
      ensures Gains(old(FD(n, din)), FD(n, d), n, fbn)
      ensures ok ==> x == Ptr(FD(n, d), n, SlotOf(fbn)) && 0 < x < freeblock
      ensures |din.addrs| == |d.addrs| == 13 && ok ==>
                (d.addrs[NDIRECT] != 0 <==> din.addrs[NDIRECT] != 0 || fbn >= NDIRECT)
      ensures |din.addrs| == 13
      ensures var need := (if old(Ptr(FD(n, din), n, SlotOf(fbn))) == 0 then 1 else 0) +
              (if fbn >= NDIRECT && din.addrs[NDIRECT] == 0 then 1 else 0);
        (ok <==> old(freeblock) + need <= |blocks|) && (ok ==> freeblock == old(freeblock) + need)
    {
      hide Inv, Extends, Gains, Ptr;
      ghost var f := FD(n, din);
      Same(f, n, fbn);
      d := din;
      if fbn < NDIRECT {
        if d.addrs[fbn] == 0 {
          DirectPtr(f, n, fbn);
          ok, d := TakeDirect(n, din, fbn);
          if !ok {
            return false, d, 0;
          }
          Took(f, FD(n, d), n, fbn, fbn, old(freeblock));
        }
        x := d.addrs[fbn];
        DirectPtr(FD(n, d), n, fbn);
        PtrBelow(FD(n, d), n, fbn, freeblock);
        return true, d, x;
      }
      ok, d, x := LocateIndirect(n, din, fbn);
    }

    method LocateIndirect(n: nat, din: Inode, fbn: nat) returns (ok: bool, d: Inode, x: nat)
      requires Working(n, din) && NDIRECT <= fbn < MAXFILE
      modifies this`freeblock, this`owner, this`blocks
      ensures Working(n, d) && |blocks| == old(|blocks|) && Extends(old(FD(n, din)), FD(n, d), n)
      ensures Gains(old(FD(n, din)), FD(n, d), n, fbn)
      ensures |din.addrs| == 13 && |d.addrs| == 13 && (ok ==> d.addrs[NDIRECT] != 0)
      ensures ok ==> x == Ptr(FD(n, d), n, fbn + 1) && 0 < x < freeblock
      ensures var need := (if old(Ptr(FD(n, din), n, fbn + 1)) == 0 then 1 else 0) +
              (if din.addrs[NDIRECT] == 0 then 1 else 0);
        (ok <==> old(freeblock) + need <= |blocks|) && (ok ==> freeblock == old(freeblock) + need)
    {
      hide Inv, Extends, Gains, Ptr, Entry, Assign;
      ghost var f := FD(n, din);
      Same(f, n, fbn);
      d := din;
      EntriesOf(f, n, fbn);
      if d.addrs[NDIRECT] == 0 {
        DirectPtr(f, n, NDIRECT);
        ok, d := TakeDirect(n, din, NDIRECT);
        if !ok {
          return false, d, 0;
        }
        Took(f, FD(n, d), n, NDIRECT, fbn, old(freeblock));
        AssignPtr(f, n, NDIRECT, old(freeblock), n, fbn + 1);
      }
      ghost var t := FD(n, d);
      ghost var b := freeblock;
      EntryPtr(t, n, fbn);
      var j := fbn - NDIRECT;
      if Entry(blocks[d.addrs[NDIRECT]], j) == 0 {
        ok := TakeEntry(n, d, j);
        if !ok {
          return false, d, 0;
        }
        Took(t, FD(n, d), n, fbn + 1, fbn, b);
        ExtendsTrans(f, t, FD(n, d), n);
        GainsTrans(f, t, FD(n, d), n, fbn);
      }
      EntryPtr(FD(n, d), n, fbn);
      x := Entry(blocks[d.addrs[NDIRECT]], j);
      PtrBelow(FD(n, d), n, fbn + 1, freeblock);
      return true, d, x;
    }

    /** One iteration of iappend's loop. */
    method AppendChunk(n: nat, din: Inode, at: nat, y: seq<Byte>, ghost f: Fs, ghost off: nat, ghost x: seq<Byte>)
      returns (ok: bool, d: Inode)
      requires Working(n, din) && at == off + |x| < MAXFILE * BSIZE && 0 < |y| <= BSIZE - at % BSIZE
      requires Writes(f, FD(n, din), n, off, x) && Tight(FD(n, din), n, at) && GainsOnly(f, FD(n, din), n)
      requires Ends(FD(n, din), n, at)
      modifies this`freeblock, this`owner, this`blocks
      ensures Working(n, d) && |blocks| == old(|blocks|)
      ensures ok <==> old(freeblock) + Takes(at) <= |blocks|
      ensures ok ==> freeblock == old(freeblock) + Takes(at) && Ends(FD(n, d), n, at + |y|)
      ensures ok ==> Writes(f, FD(n, d), n, off, x + y) && Tight(FD(n, d), n, at + |y|) && GainsOnly(f, FD(n, d), n)
    {
      hide Inv, Extends, Gains, Ptr, Writes, Tight, GainsOnly, Ends, Takes;
      ghost var t := FD(n, din);
      EndsTakes(t, n, at);
      EndsPtr(t, n, at);
      var b: nat;
      ok, d, b := Locate(n, din, at / BSIZE);
      if !ok {
        return;
      }
      ghost var u := FD(n, d);
      ShapeOf(u);
      HasByteOf(u, n, at);
      WritesMore(f, t, u, n, off, x, y);
      SetBlockKeeps(u, b, Splice(blocks[b], at % BSIZE, y));
      blocks := blocks[b := Splice(blocks[b], at % BSIZE, y)];
      assert FD(n, d) == SetBlock(u, b, Splice(u.blocks[b], at % BSIZE, y));
      StillTight(f, t, u, FD(n, d), n, b, Splice(u.blocks[b], at % BSIZE, y), at, |y|);
      StillEnds(u, FD(n, d), n, b, Splice(u.blocks[b], at % BSIZE, y), at, |y|);
    }

    /** Appends p to the file; false exactly when the image has too few blocks left for it. */
    method IAppend(n: nat, p: seq<Byte>) returns (ok: bool)
      requires Valid() && n < freeinode && GoodFile(F(), n) && inodes[n].size + |p| <= MAXFILE * BSIZE
      modifies this`freeblock, this`owner, this`blocks, this`inodes
      ensures var more := Blocks(old(inodes[n].size) + |p|) - Blocks(old(inodes[n].size));
        |blocks| == old(|blocks|) && (ok <==> old(freeblock) + more <= |blocks|)
          && (ok ==> freeblock == old(freeblock) + more)
      ensures ok ==>
                Valid() && |inodes| == old(|inodes|) && GoodFile(F(), n) && inodes[n].size == old(inodes[n].size) + |p|
      ensures ok ==> Contents(F(), n) == old(Contents(F(), n)) + p
      ensures ok ==> GainsOnly(old(F()), F(), n) && freeinode == old(freeinode)
      ensures ok ==> forall m: nat :: m < |inodes| && m != n ==>
                SameFile(old(F()), F(), m) && inodes[m] == old(inodes)[m]
    {
      hide Inv, Writes, Tight, Dense, Contents, SameFile, HasByte, GainsOnly, Ends, Blocks, Takes;
      ghost var f, size := F(), inodes[n].size;
      var din := inodes[n];
      assert inodes[n := din] == inodes;
      WritesStart(f, n, size);
      NoGain(f, n);
      var off, tot := din.size, 0;
      while tot < |p|
        invariant inodes == old(inodes) && |blocks| == old(|blocks|) && Working(n, din) && tot <= |p|
        invariant off == size + tot
        invariant Writes(f, FD(n, din), n, size, p[..tot]) && Tight(FD(n, din), n, off) && GainsOnly(f, FD(n, din), n)
        invariant Ends(FD(n, din), n, off) && freeblock == old(freeblock) + Blocks(off) - Blocks(size)
      {
        var fbn := off / BSIZE;
        var n1 := if |p| - tot < (fbn + 1) * BSIZE - off then |p| - tot else (fbn + 1) * BSIZE - off;
        BlocksStep(off, n1);
        BlocksMore(off + n1, size + |p|);
        ok, din := AppendChunk(n, din, off, p[tot..tot + n1], f, size, p[..tot]);
        if !ok {
          return;
        }
        assert p[..tot] + p[tot..tot + n1] == p[..tot + n1];
        tot, off := tot + n1, off + n1;
      }
      assert p[..tot] == p;
      ghost var t := FD(n, din);
      Appended(f, t, n, p);
      din := Inode(din.typ, din.nlink, off, din.addrs);
      inodes := inodes[n := din];
      assert F() == WithSize(t, n, size + |p|);
      ok := true;
    }

    // ---- main ----

    /** Every inode handed out is a file or directory whose blocks are exactly those of its size. */
    ghost predicate Good()
      reads this
    {
      Valid() && forall n: nat :: 1 <= n < freeinode ==> GoodFile(F(), n)
    }

    /** One file given on the command line: its inode, its entry in the root directory, its bytes
        a buffer at a time. */
    method AddFile(root: nat, entry: seq<Byte>, content: seq<Byte>) returns (ok: bool, inum: nat)
      requires Good() && 1 <= root < freeinode < |inodes| && |content| <= MAXFILE * BSIZE
      requires inodes[root].size + |entry| <= MAXFILE * BSIZE
      modifies this
      ensures inum == old(freeinode) && |blocks| == old(|blocks|)
      ensures var size := old(inodes[root].size);
              var total := old(freeblock) + Blocks(size + |entry|) - Blocks(size) + Blocks(|content|);
        (ok <==> total <= |blocks|) && (ok ==> freeblock == total)
      ensures ok ==> Good() && freeinode == inum + 1 && |inodes| == old(|inodes|)
      ensures ok ==> Holds(F(), inum, content) && Appends(old(F()), F(), root, entry)
      ensures ok ==> forall m: nat :: 1 <= m < inum && m != root ==> SameFile(old(F()), F(), m)
    {
      hide Inv, Dense, Contents, Tight, SameFile, HasByte, GainsOnly, Ends, Blocks;
      ghost var f := F();
      NewFile(f, freeinode, 2, freeinode);
      inum := IAlloc(2);
      ghost var g := F();
      assert GoodFile(g, root) && GoodFile(g, inum) && inum < |g.inodes|;
      ok := IAppend(root, entry);
      if !ok {
        return;
      }
      ghost var h, fb := F(), freeblock;
      AppendGood(g, h, root, freeinode);
      AppendChain(f, g, h, root, entry, inum);
      var tot := 0;
      NoChange(h, inum);
      NoBlocks();
      while tot < |content|
        invariant Valid() && |blocks| == old(|blocks|) && |inodes| == old(|inodes|) && freeinode == inum + 1
        invariant tot <= |content| && Filling(h, F(), inum, content[..tot]) && AllGood(F(), freeinode)
        invariant freeblock == fb + Blocks(tot)
      {
        var cc := if |content| - tot < BSIZE then |content| - tot else BSIZE;
        ghost var s := F();
        FillingFacts(h, s, inum, content[..tot], freeinode);
        BlocksMore(tot + cc, |content|);
        ok := IAppend(inum, content[tot..tot + cc]);
        if !ok {
          return;
        }
        AppendGood(s, F(), inum, freeinode);
        FillingMore(h, s, F(), inum, content[..tot], content[tot..tot + cc]);
        assert content[..tot] + content[tot..tot + cc] == content[..tot + cc];
        tot := tot + cc;
      }
      assert content[..tot] == content;
      FillingEnd(f, h, F(), root, inum, entry, content);
      ok := true;
    }

    /** Rounds the size of the root directory up to a block; when it is a block multiple already,
        the last block is missing. */
    method RoundRoot(root: nat)
      requires Good() && 1 <= root < freeinode
      modifies this`inodes
      ensures Valid() && |inodes| == old(|inodes|)
      ensures F() == WithSize(old(F()), root, (old(inodes)[root].size / BSIZE + 1) * BSIZE)
      ensures Dense(F(), root) <==> old(inodes)[root].size % BSIZE != 0
      ensures root < |old(inodes)| && old(Contents(F(), root)) <= Contents(F(), root)
      ensures forall m: nat :: m < |inodes| && m != root ==> SameFile(old(F()), F(), m)
    {
      hide Inv, Dense, Contents, SameFile, Tight;
      ghost var f := F();
      assert GoodFile(f, root);
      var din := inodes[root];
      var off := (din.size / BSIZE + 1) * BSIZE;
      WithSizeKeeps(f, root, off);
      RoundedIff(f, root, off);
      inodes := inodes[root := Inode(din.typ, din.nlink, off, din.addrs)];
      assert F() == WithSize(f, root, off);
    }

    /** The bitmap block: the first `freeblock` bits are set. */
    method Bitmap() returns (bits: seq<bool>)
      requires Valid() && freeblock < BPB
      ensures bits == UsedBelow(freeblock, |blocks|)
    {
      bits := seq(|blocks|, _ => false);
      for i := 0 to freeblock
        invariant |bits| == |blocks| && forall b :: 0 <= b < |bits| ==> (bits[b] <==> b < i)
      {
        bits := bits[i := true];
      }
    }

    /** The whole image: the root directory with an entry per file, and the files. It succeeds exactly
        when there are blocks enough, as many as one bitmap block has bits. Block ownership holds of
        it and every file reads as given; the root directory is without a hole exactly when its
        entries do not fill their last block. */
    method Build(dots: seq<Byte>, entries: seq<seq<Byte>>, files: seq<seq<Byte>>) returns (ok: bool, bits: seq<bool>)
      requires Good() && freeinode == 1 && |entries| == |files| <= |inodes| - 2
      requires |dots| + |Concat(entries)| <= MAXFILE * BSIZE
      requires forall j :: 0 <= j < |files| ==> |files[j]| <= MAXFILE * BSIZE
      modifies this
      ensures var total := old(freeblock) + Blocks(|dots + Concat(entries)|) + TotalBlocks(files);
        ok <==> total <= old(|blocks|) && total < BPB
      ensures ok ==> var f := Fs(inodes, bits, blocks, owner, start);
        && Inv(f) && (forall j :: 0 <= j < |files| ==> Holds(f, j + 2, files[j])) && 1 < |inodes|
        && (Dense(f, 1) <==> |dots + Concat(entries)| % BSIZE != 0) && dots + Concat(entries) <= Contents(f, 1)
        && inodes[1].size == (|dots + Concat(entries)| / BSIZE + 1) * BSIZE
      ensures ok ==>
                var total := old(freeblock) + Blocks(|dots + Concat(entries)|) + TotalBlocks(files);
                |blocks| == old(|blocks|) && bits == UsedBelow(total, |blocks|)
    {
      hide Inv, Dense, Contents, SameFile, Tight, HasByte, GainsOnly, Holds, Ends, Blocks, TotalBlocks, Concat, Appends;
      NewFile(F(), 1, 1, 1);
      var root := IAlloc(1);
      ghost var g := F();
      NoBlocks();
      TotalMore(files, 0);
      SumMore(dots, entries, files, 0);
      ok := IAppend(root, dots);
      if !ok {
        return false, [];
      }
      AppendGood(g, F(), root, freeinode);
      RootStart(g, F(), root, dots, entries);
      for i := 0 to |files|
        invariant Good() && root == 1 && freeinode == i + 2 && |inodes| == old(|inodes|) && |entries| == |files|
        invariant |blocks| == old(|blocks|)
        invariant Holds(F(), root, dots + Concat(entries[..i]))
        invariant forall j :: 0 <= j < i ==> Holds(F(), j + 2, files[j])
        invariant freeblock == old(freeblock) + Blocks(|dots + Concat(entries[..i])|) + TotalBlocks(files[..i])
      {
        ghost var s := F();
        DirSize(s, root, dots, entries, i);
        HoldsSize(s, root, dots + Concat(entries[..i]));
        ConcatPrefix(entries, i);
        TotalMore(files, i);
        SumMore(dots, entries, files, i + 1);
        var inum: nat;
        ok, inum := AddFile(root, entries[i], files[i]);
        if !ok {
          return false, [];
        }
        DirMore(s, F(), root, dots, entries, files, i);
      }
      assert entries[..|files|] == entries && files[..|files|] == files;
      ghost var s := F();
      HoldsSize(s, root, dots + Concat(entries));
      RoundRoot(root);
      FilesKept(s, F(), root, files);
      if freeblock >= BPB {
        return false, [];
      }
      bits := Bitmap();
      ok := true;
    }
  }

  lemma NoBlocks()
    ensures Blocks(0) == 0 && TotalBlocks([]) == 0
  {}

  /** The blocks of a first part of the image are among those of the whole. */
  lemma SumMore(dots: seq<Byte>, entries: seq<seq<Byte>>, files: seq<seq<Byte>>, i: nat)
    requires i <= |entries| == |files|
    ensures Blocks(|dots|) <= Blocks(|dots + Concat(entries)|)
    ensures Blocks(|dots + Concat(entries[..i])|) + TotalBlocks(files[..i]) <=
            Blocks(|dots + Concat(entries)|) + TotalBlocks(files)
  {
    hide Blocks, TotalBlocks, Concat;
    ConcatPrefix(entries, i);
    TotalMore(files, i);
    BlocksMore(|dots|, |dots + Concat(entries)|);
    BlocksMore(|dots + Concat(entries[..i])|, |dots + Concat(entries)|);
  }

  lemma EmptyInv(f: Fs)
    requires Shape(f) && f.owner == map[] && f.used == UsedBelow(f.start, |f.blocks|)
    requires forall n :: 0 <= n < |f.inodes| ==> f.inodes[n] == Inode(0, 0, 0, seq(13, _ => 0))
    ensures Inv(f)
  {
    forall n: nat, i: nat | n < |f.inodes| && i < NSLOTS ensures PtrOk(f, n, i) {}
  }

  /** Block b is the next one, and zero already. */
  lemma TakeIs(f: Fs, n: nat, i: nat, b: nat)
    requires Shape(f) && n < |f.inodes| && i < NSLOTS && b < |f.blocks| && f.used == UsedBelow(b, |f.blocks|)
    requires f.blocks[b] == ZeroBlock()
    requires i > NDIRECT ==> f.inodes[n].addrs[NDIRECT] < |f.blocks|
    ensures UsedBelow(b + 1, |f.blocks|) == f.used[b := true] && f.blocks[b := ZeroBlock()] == f.blocks
  {}

  lemma IndirectBelow(f: Fs, n: nat, b: nat)
    requires Inv(f) && n < |f.inodes| && f.used == UsedBelow(b, |f.blocks|) && b <= |f.blocks|
    ensures Shape(f) && (f.inodes[n].addrs[NDIRECT] < b || f.inodes[n].addrs[NDIRECT] == 0)
  {
    PtrFacts(f, n, NDIRECT);
  }

  lemma Same(f: Fs, n: nat, fbn: nat)
    requires Inv(f) && n < |f.inodes|
    ensures Extends(f, f, n) && Gains(f, f, n, fbn) && |f.inodes[n].addrs| == 13
  {}

  lemma DirectPtr(f: Fs, n: nat, i: nat)
    requires Inv(f) && n < |f.inodes| && i <= NDIRECT
    ensures Shape(f) && |f.inodes[n].addrs| == 13 && Ptr(f, n, i) == f.inodes[n].addrs[i]
  {}

  lemma EntryPtr(f: Fs, n: nat, fbn: nat)
    requires Inv(f) && n < |f.inodes| && NDIRECT <= fbn < MAXFILE && |f.inodes[n].addrs| == 13
    requires f.inodes[n].addrs[NDIRECT] != 0
    ensures Shape(f) && f.inodes[n].addrs[NDIRECT] < |f.blocks|
    ensures Ptr(f, n, fbn + 1) == Entry(f.blocks[f.inodes[n].addrs[NDIRECT]], fbn - NDIRECT)
  {
    PtrFacts(f, n, NDIRECT);
  }

  lemma EntriesOf(f: Fs, n: nat, fbn: nat)
    requires Inv(f) && n < |f.inodes| && NDIRECT <= fbn < MAXFILE
    ensures Shape(f) && |f.inodes[n].addrs| == 13 && (f.inodes[n].addrs[NDIRECT] == 0 ==> Ptr(f, n, fbn + 1) == 0)
  {}

  lemma PtrBelow(f: Fs, n: nat, i: nat, b: nat)
    requires Inv(f) && n < |f.inodes| && i < NSLOTS && f.used == UsedBelow(b, |f.blocks|)
    ensures Shape(f) && (Ptr(f, n, i) != 0 ==> Ptr(f, n, i) < b)
  {
    PtrFacts(f, n, i);
  }

  lemma GainsTrans(f: Fs, t: Fs, u: Fs, n: nat, fbn: nat)
    requires Gains(f, t, n, fbn) && Gains(t, u, n, fbn)
    ensures Gains(f, u, n, fbn)
  {}

  /** A pointer got the next block: that of block fbn, or the indirect block on the way to it. */
  lemma Took(f: Fs, t: Fs, n: nat, i: nat, fbn: nat, b: nat)
    requires Inv(f) && Assignable(f, n, i) && FreeBlock(f, b) && t == Assign(f, n, i, b) && fbn < MAXFILE
    requires (i == SlotOf(fbn) || i == NDIRECT)
    ensures Extends(f, t, n) && Gains(f, t, n, fbn) && Shape(t) && Ptr(t, n, i) == b != 0
  {
    AssignExtends(f, n, i, b);
    AssignPtr(f, n, i, b, n, i);
    hide Inv, Extends;
    forall m: nat, o: nat | HasByte(t, m, o) ensures HasByte(f, m, o) || (m == n && o / BSIZE == fbn) {
      AssignPtr(f, n, i, b, m, SlotOf(o / BSIZE));
    }
  }

  lemma StillTight(f: Fs, t: Fs, u: Fs, v: Fs, n: nat, b: nat, x: Block, at: nat, k: nat)
    requires Tight(t, n, at) && GainsOnly(f, t, n) && Gains(t, u, n, at / BSIZE) && k > 0
    requires Shape(u) && b < |u.blocks| && NotIndirect(u, b) && v == SetBlock(u, b, x)
    ensures Tight(v, n, at + k) && GainsOnly(f, v, n)
  {
    forall m: nat, o: nat | HasByte(v, m, o) ensures HasByte(u, m, o) {
      SetBlockPtr(u, b, x, m, SlotOf(o / BSIZE));
    }
    hide HasByte;
  }

  lemma EndsPtr(f: Fs, n: nat, at: nat)
    requires Ends(f, n, at)
    ensures |f.inodes[n].addrs| == 13 && (f.inodes[n].addrs[NDIRECT] != 0 <==> at > NDIRECT * BSIZE)
  {}

  lemma StillEnds(u: Fs, v: Fs, n: nat, b: nat, x: Block, at: nat, k: nat)
    requires Shape(u) && n < |u.inodes| && HasByte(u, n, at) && 0 < k <= BSIZE - at % BSIZE
    requires b < |u.blocks| && NotIndirect(u, b) && v == SetBlock(u, b, x)
    requires u.inodes[n].addrs[NDIRECT] != 0 <==> at > NDIRECT * BSIZE || at / BSIZE >= NDIRECT
    ensures Ends(v, n, at + k)
  {
    if (at + k) % BSIZE != 0 {
      assert (at + k - 1) / BSIZE == at / BSIZE;
      SetBlockPtr(u, b, x, n, SlotOf(at / BSIZE));
    }
    SetBlockPtr(u, b, x, n, NDIRECT);
  }

  lemma NoGain(f: Fs, n: nat)
    ensures GainsOnly(f, f, n)
  {}

  lemma Appended(f: Fs, t: Fs, n: nat, p: seq<Byte>)
    requires Inv(t) && Dense(f, n) && Writes(f, t, n, f.inodes[n].size, p) && f.inodes[n].size + |p| <= MAXFILE * BSIZE
    requires Tight(t, n, f.inodes[n].size + |p|) && GainsOnly(f, t, n) && Ends(t, n, f.inodes[n].size + |p|)
    ensures var u := WithSize(t, n, f.inodes[n].size + |p|);
      && Inv(u) && Dense(u, n) && Contents(u, n) == Contents(f, n) + p && Tight(u, n, f.inodes[n].size + |p|)
      && GainsOnly(f, u, n)
      && Ends(u, n, f.inodes[n].size + |p|)
      && |u.inodes| == |f.inodes| && u.inodes[n].typ == f.inodes[n].typ
      && (forall m: nat :: m < |f.inodes| && m != n ==> SameFile(f, u, m) && u.inodes[m] == f.inodes[m])
  {
    var size := f.inodes[n].size + |p|;
    ShapeOf(t);
    WithSizeKeeps(t, n, size);
    WritesContents(f, t, n, f.inodes[n].size, p);
    WritesOthers(f, t, n, f.inodes[n].size, p, size);
    assert SpliceFile(Contents(f, n), f.inodes[n].size, p) == Contents(f, n) + p;
    hide Inv;
    forall m: nat, o: nat ensures HasByte(WithSize(t, n, size), m, o) <==> HasByte(t, m, o) {
      WithSizeByte(t, n, size, m, o);
    }
    WithSizePtr(t, n, size, n, NDIRECT);
    hide HasByte;
  }

  ghost predicate GoodFile(f: Fs, n: nat) {
    && n < |f.inodes| && f.inodes[n].typ != 0 && Dense(f, n) && Tight(f, n, f.inodes[n].size)
    && Ends(f, n, f.inodes[n].size)
  }

  ghost predicate AllGood(f: Fs, k: nat) {
    forall n: nat :: 1 <= n < k ==> GoodFile(f, n)
  }

  ghost predicate Holds(f: Fs, n: nat, content: seq<Byte>) {
    n < |f.inodes| && Dense(f, n) && Contents(f, n) == content
  }

  /** p was appended to file n. */
  ghost predicate Appends(f: Fs, t: Fs, n: nat, p: seq<Byte>) {
    Dense(f, n) && Dense(t, n) && Contents(t, n) == Contents(f, n) + p
  }

  /** From h, the empty file n was filled with x; the other files are as they were. */
  ghost predicate Filling(h: Fs, t: Fs, n: nat, x: seq<Byte>) {
    Holds(t, n, x) && n < |h.inodes| == |t.inodes| && forall m: nat :: m < |h.inodes| && m != n ==> SameFile(h, t, m)
  }

  /** A new inode is an empty file, and every other is as it was. */
  lemma NewFile(f: Fs, n: nat, typ: int, k: nat)
    requires Inv(f) && n < |f.inodes| && f.inodes[n].typ == 0 && typ != 0 && AllGood(f, k) && k <= n
    ensures var t := Fs(f.inodes[n := Inode(typ, 1, 0, seq(13, _ => 0))], f.used, f.blocks, f.owner, f.start);
      && AllGood(t, k) && GoodFile(t, n) && Holds(t, n, [])
      && forall m: nat :: m < |f.inodes| && m != n ==> SameFile(f, t, m)
  {
    var t := Fs(f.inodes[n := Inode(typ, 1, 0, seq(13, _ => 0))], f.used, f.blocks, f.owner, f.start);
    ShapeOf(f);
    assert FreeInodeOk(f, n);
    NewInodeKeeps(f, n, typ, 1);
    ShapeOf(t);
    hide Inv;
    forall m: nat, o: nat
      ensures (HasByte(t, m, o) <==> HasByte(f, m, o)) && SameByte(f, t, m, o) && (m == n ==> !HasByte(t, m, o))
    {}
    hide HasByte, ByteAt;
    forall m: nat | m < |f.inodes| && m != n ensures SameFile(f, t, m) {
      SameBytesSize(f, t, m);
    }
    forall m: nat | 1 <= m < k ensures GoodFile(t, m) {
      assert GoodFile(f, m) && SameFile(f, t, m);
    }
  }

  lemma AppendGood(f: Fs, t: Fs, n: nat, k: nat)
    requires AllGood(f, k) && GoodFile(t, n) && |t.inodes| == |f.inodes| && GainsOnly(f, t, n)
    requires forall m: nat :: m < |f.inodes| && m != n ==> SameFile(f, t, m) && t.inodes[m] == f.inodes[m]
    ensures AllGood(t, k)
  {
    hide HasByte, Contents;
    forall m: nat | 1 <= m < k ensures GoodFile(t, m) {
      assert GoodFile(f, m);
      if m != n { assert SameFile(f, t, m); }
    }
  }

  lemma AppendChain(f: Fs, g: Fs, h: Fs, root: nat, entry: seq<Byte>, inum: nat)
    requires GoodFile(f, root) && |f.inodes| == |g.inodes| == |h.inodes| && root != inum < |f.inodes|
    requires forall m: nat :: m < |f.inodes| && m != inum ==> SameFile(f, g, m)
    requires forall m: nat :: m < |f.inodes| && m != root ==> SameFile(g, h, m)
    requires Holds(g, inum, []) && Appends(g, h, root, entry)
    ensures Holds(h, inum, []) && Appends(f, h, root, entry)
    ensures forall m: nat :: m < |f.inodes| && m != root && m != inum ==> SameFile(f, h, m)
  {
    hide Dense, Contents;
    assert SameFile(f, g, root) && SameFile(g, h, inum);
    forall m: nat | m < |f.inodes| && m != root && m != inum ensures SameFile(f, h, m) {
      assert SameFile(f, g, m) && SameFile(g, h, m);
    }
  }

  lemma NoChange(h: Fs, n: nat)
    requires Holds(h, n, []) && n < |h.inodes|
    ensures Filling(h, h, n, [])
  {}

  lemma FillingFacts(h: Fs, s: Fs, n: nat, x: seq<Byte>, k: nat)
    requires Filling(h, s, n, x) && AllGood(s, k) && 1 <= n < k
    ensures GoodFile(s, n) && s.inodes[n].size == |x|
  {
    assert |Contents(s, n)| == s.inodes[n].size;
  }

  lemma FillingMore(h: Fs, s: Fs, t: Fs, n: nat, x: seq<Byte>, y: seq<Byte>)
    requires Filling(h, s, n, x) && Appends(s, t, n, y) && |t.inodes| == |s.inodes|
    requires forall m: nat :: m < |s.inodes| && m != n ==> SameFile(s, t, m)
    ensures Filling(h, t, n, x + y)
  {
    hide Dense, Contents;
    forall m: nat | m < |h.inodes| && m != n ensures SameFile(h, t, m) {
      assert SameFile(h, s, m) && SameFile(s, t, m);
    }
  }

  lemma FillingEnd(f: Fs, h: Fs, t: Fs, root: nat, inum: nat, entry: seq<Byte>, content: seq<Byte>)
    requires Filling(h, t, inum, content) && Appends(f, h, root, entry) && root != inum && root < |h.inodes|
    requires |f.inodes| == |h.inodes|
    requires forall m: nat :: m < |f.inodes| && m != root && m != inum ==> SameFile(f, h, m)
    ensures Holds(t, inum, content) && Appends(f, t, root, entry)
    ensures forall m: nat :: m < |f.inodes| && m != root && m != inum ==> SameFile(f, t, m)
  {
    hide Dense, Contents;
    assert SameFile(h, t, root);
    forall m: nat | m < |f.inodes| && m != root && m != inum ensures SameFile(f, t, m) {
      assert SameFile(f, h, m) && SameFile(h, t, m);
    }
  }

  function Concat(xs: seq<seq<Byte>>): seq<Byte> {
    if xs == [] then [] else Concat(xs[..|xs| - 1]) + xs[|xs| - 1]
  }

  lemma {:induction false} ConcatPrefix(xs: seq<seq<Byte>>, i: nat)
    requires i <= |xs|
    ensures |Concat(xs[..i])| <= |Concat(xs)|
    ensures i < |xs| ==> Concat(xs[..i + 1]) == Concat(xs[..i]) + xs[i]
    decreases |xs|
  {
    if i == |xs| {
      assert xs[..i] == xs;
    } else {
      assert xs[..i + 1][..i] == xs[..i];
      ConcatPrefix(xs[..|xs| - 1], i);
      assert xs[..|xs| - 1][..i] == xs[..i];
    }
  }

  lemma HoldsSize(f: Fs, n: nat, x: seq<Byte>)
    requires Holds(f, n, x)
    ensures f.inodes[n].size == |x| && Dense(f, n) && Contents(f, n) == x
  {}

  lemma RootStart(g: Fs, h: Fs, root: nat, dots: seq<Byte>, entries: seq<seq<Byte>>)
    requires Holds(g, root, []) && Appends(g, h, root, dots)
    ensures Holds(h, root, dots + Concat(entries[..0]))
  {
    assert dots + Concat(entries[..0]) == dots;
    assert [] + dots == dots;
  }

  lemma DirSize(s: Fs, root: nat, dots: seq<Byte>, entries: seq<seq<Byte>>, i: nat)
    requires i < |entries| && Holds(s, root, dots + Concat(entries[..i]))
    requires |dots| + |Concat(entries)| <= MAXFILE * BSIZE
    ensures s.inodes[root].size + |entries[i]| <= MAXFILE * BSIZE
  {
    HoldsSize(s, root, dots + Concat(entries[..i]));
    ConcatPrefix(entries, i);
    ConcatPrefix(entries, i + 1);
  }

  lemma DirMore(s: Fs, t: Fs, root: nat, dots: seq<Byte>, entries: seq<seq<Byte>>, files: seq<seq<Byte>>, i: nat)
    requires |t.inodes| == |s.inodes| && root == 1 && i < |entries| == |files|
    requires Holds(s, root, dots + Concat(entries[..i])) && Appends(s, t, root, entries[i])
    requires (forall j :: 0 <= j < i ==> Holds(s, j + 2, files[j])) && Holds(t, i + 2, files[i])
    requires forall m: nat :: 1 <= m < i + 2 && m != root ==> SameFile(s, t, m)
    ensures Holds(t, root, dots + Concat(entries[..i + 1])) && forall j :: 0 <= j < i + 1 ==> Holds(t, j + 2, files[j])
  {
    hide Dense, Contents;
    ConcatPrefix(entries, i);
    assert dots + Concat(entries[..i]) + entries[i] == dots + Concat(entries[..i + 1]);
    forall j | 0 <= j < i + 1 ensures Holds(t, j + 2, files[j]) {
      if j < i { assert Holds(s, j + 2, files[j]) && SameFile(s, t, j + 2); }
    }
  }

  lemma FilesKept(s: Fs, t: Fs, root: nat, files: seq<seq<Byte>>)
    requires |t.inodes| == |s.inodes| && root == 1 && |files| + 2 <= |t.inodes|
    requires forall m: nat :: m < |t.inodes| && m != root ==> SameFile(s, t, m)
    requires forall j :: 0 <= j < |files| ==> Holds(s, j + 2, files[j])
    ensures forall j :: 0 <= j < |files| ==> Holds(t, j + 2, files[j])
  {
    hide Dense, Contents;
    forall j | 0 <= j < |files| ensures Holds(t, j + 2, files[j]) {
      assert Holds(s, j + 2, files[j]) && SameFile(s, t, j + 2);
    }
  }

  /** A size rounded up past a block multiple reaches into a block that is not there. */
  lemma RoundedIff(f: Fs, n: nat, off: nat)
    requires Inv(f) && GoodFile(f, n) && off == (f.inodes[n].size / BSIZE + 1) * BSIZE
    ensures var u := WithSize(f, n, off);
      && (Dense(u, n) <==> f.inodes[n].size % BSIZE != 0) && Contents(f, n) <= Contents(u, n)
      && forall m: nat :: m < |f.inodes| && m != n ==> SameFile(f, u, m)
  {
    var u := WithSize(f, n, off);
    var size: nat := f.inodes[n].size;
    WithSizePtr(f, n, off, n, 0);
    forall m: nat, o: nat ensures (HasByte(u, m, o) <==> HasByte(f, m, o)) && ByteAt(u, m, o) == ByteAt(f, m, o) {
      WithSizeByte(f, n, off, m, o);
    }
    WithSizeOthers(f, n, off);
    hide Inv, HasByte, ByteAt;
    if size % BSIZE != 0 {
      forall o: nat | o < off ensures HasByte(u, n, o) {
        var o' := if o < size then o else size - 1;
        assert HasByte(f, n, o');
        assert o' / BSIZE == o / BSIZE;
        SameBlockHas(f, n, o', o);
      }
      assert off <= MAXFILE * BSIZE;
    } else {
      assert size / BSIZE * BSIZE == size;
      assert !HasByte(f, n, size);
      assert Dense(u, n) ==> HasByte(u, n, size);
    }
    forall o | 0 <= o < size ensures Contents(u, n)[o] == Contents(f, n)[o] {}
  }

  lemma SameBlockHas(f: Fs, n: nat, o: nat, o': nat)
    requires HasByte(f, n, o) && o / BSIZE == o' / BSIZE
    ensures HasByte(f, n, o')
  {}

  lemma WithSizeOthers(f: Fs, n: nat, size: nat)
    requires Shape(f) && n < |f.inodes|
    ensures forall m: nat :: m < |f.inodes| && m != n ==> SameFile(f, WithSize(f, n, size), m)
  {
    WritesStart(f, n, 0);
    WritesOthers(f, f, n, 0, [], size);
  }

  lemma {:induction false} ConcatSame(x: seq<Byte>, k: nat)
    ensures |Concat(seq(k, _ => x))| == k * |x|
  {
    if k > 0 {
      ConcatSame(x, k - 1);
      assert seq(k, _ => x)[..k - 1] == seq(k - 1, _ => x);
    }
  }

  lemma {:induction false} EmptyFiles(k: nat)
    ensures TotalBlocks(seq(k, _ => [])) == 0
  {
    if k > 0 {
      EmptyFiles(k - 1);
      var none: seq<Byte> := [];
      assert seq(k, _ => none)[..k - 1] == seq(k - 1, _ => none);
    }
  }

  /** The smallest image with such a hole: "." and ".." and 62 empty files are 64 entries of 16 bytes,
      which fill one block. */
  method RootWithHole() returns (ok: bool, image: Image, bits: seq<bool>)
    ensures ok && fresh(image)
    ensures var f := Fs(image.inodes, bits, image.blocks, image.owner, image.start);
            && Inv(f) && 1 < |f.inodes| && f.inodes[1].size == 2 * BSIZE && !Dense(f, 1)
            && f.inodes[1].typ != 0 && |f.inodes[1].addrs| == 13 && f.inodes[1].addrs[1] == 0
            && |f.used| > 0 && !f.used[|f.used| - 1]
  {
    hide Inv, Dense, Contents, Holds;
    image := new Image(FSSIZE, NINODES, NMeta(LOGBLOCKS, NINODES, FSSIZE));
    var entry: seq<Byte> := seq(16, _ => 1);
    var none: seq<Byte> := [];
    var entries, files := seq(62, _ => entry), seq(62, _ => none);
    ConcatSame(entry, 62);
    EmptyFiles(62);
    ok, bits := image.Build(entry + entry, entries, files);
    HoleAt(Fs(image.inodes, bits, image.blocks, image.owner, image.start), entry + entry + Concat(entries));
  }

  /** The hole is the second block. */
  lemma HoleAt(f: Fs, c: seq<Byte>)
    requires Inv(f) && 1 < |f.inodes| && f.inodes[1].size == 2 * BSIZE && !Dense(f, 1)
    requires |c| > 0 && c[0] == 1 && c <= Contents(f, 1)
    ensures f.inodes[1].typ != 0 && |f.inodes[1].addrs| == 13 && f.inodes[1].addrs[1] == 0
  {
    assert Contents(f, 1)[0] == 1 && ByteAt(f, 1, 0) == 1;
    assert Ptr(f, 1, 0) != 0 && PtrOk(f, 1, 0) && FreeInodeOk(f, 1) && PtrOk(f, 1, 1);
    var o: nat :| o < 2 * BSIZE && !HasByte(f, 1, o);
    assert o / BSIZE == 0 || o / BSIZE == 1;
  }
}
