/** kernel/fs.c below directories: the block allocator, the block map of an inode, truncation,
    reading and writing. The disk is what the log and the buffer cache present to this layer: a
    flat array of blocks (module LogSystem). A panic for lack of blocks is a false `ok`. */
module FileSys {
  import opened FsSpec

  const BPB := 8192
  const WRAP := 0x1_0000_0000

  /** struct inode: the in-memory copy of one inode. */
  class Ip {
    var inum: nat
    var ref: nat
    var valid: bool
    var typ: int
    var nlink: int
    var size: nat
    var addrs: seq<nat>

    function Value(): Inode
      reads this
    {
      Inode(typ, nlink, size, addrs)
    }

    constructor (inum: nat)
      ensures this.inum == inum && ref == 1 && !valid
    {
      this.inum, ref, valid, typ, nlink, size, addrs := inum, 1, false, 0, 0, 0, [];
    }
  }

  class Volume {
    var inodes: seq<Inode>
    var used: seq<bool>
    var blocks: seq<Block>
    const start: nat
    ghost var owner: map<nat, Slot>

    constructor (inodes: seq<Inode>, used: seq<bool>, blocks: seq<Block>, start: nat, ghost owner: map<nat, Slot>)
      ensures this.inodes == inodes && this.used == used && this.blocks == blocks && this.start == start
      ensures this.owner == owner
    {
      this.inodes, this.used, this.blocks, this.start, this.owner := inodes, used, blocks, start, owner;
    }

    /** The file system, with the inode that ip holds as ip has it. */
    ghost function F(ip: Ip): Fs
      reads this, ip
    {
      Fs(if ip.inum < |inodes| then inodes[ip.inum := ip.Value()] else inodes, used, blocks, owner, start)
    }

    ghost predicate Valid(ip: Ip)
      reads this, ip
    {
      ip.inum < |inodes| && Inv(F(ip))
    }

    /** Takes the first free block and zeroes it; false when there is none. */
    method BAlloc() returns (ok: bool, b: nat)
      requires |used| == |blocks|
      modifies this
      ensures inodes == old(inodes) && owner == old(owner)
      ensures ok <==> exists c :: 0 <= c < |old(used)| && !old(used)[c]
      ensures !ok ==> used == old(used) && blocks == old(blocks)
      ensures ok ==> b < |old(used)| && !old(used)[b] && (forall c :: 0 <= c < b ==> old(used)[c])
      ensures ok ==> used == old(used)[b := true] && blocks == old(blocks)[b := ZeroBlock()]
    {
      b := 0;
      while b < |used|
        invariant used == old(used) && blocks == old(blocks) && inodes == old(inodes) && owner == old(owner)
        invariant forall c :: 0 <= c < b && c < |used| ==> used[c]
      {
        var bi := 0;
        while bi < BPB && b + bi < |used|
          invariant used == old(used) && blocks == old(blocks) && inodes == old(inodes) && owner == old(owner)
          invariant 0 <= bi <= BPB && forall c :: 0 <= c < b + bi && c < |used| ==> used[c]
        {
          if !used[b + bi] {
            used := used[b + bi := true];
            blocks := blocks[b + bi := ZeroBlock()];
            return true, b + bi;
          }
          bi := bi + 1;
        }
        b := b + BPB;
      }
      return false, 0;
    }

    /** Clears the bit of a block, which must be set. */
    method BFree(b: nat)
      requires b < |used| && used[b]
      modifies this
      ensures used == old(used)[b := false] && blocks == old(blocks) && inodes == old(inodes) && owner == old(owner)
    {
      used := used[b := false];
    }

    // ---- bmap ----

    /** A new block for a pointer of the inode itself. */
    method AllocDirect(ip: Ip, i: nat) returns (ok: bool, addr: nat)
      requires Valid(ip) && i <= NDIRECT && Assignable(F(ip), ip.inum, i)
      modifies this, ip`addrs
      ensures Valid(ip) && Allocated(old(F(ip)), F(ip), ip.inum, i, ok, addr)
      ensures KeptBesides(old(ip.Value()), ip.Value()) && ip.inum == old(ip.inum)
      ensures inodes == old(inodes) && |ip.addrs| == 13
      ensures ip.addrs == if ok then old(ip.addrs)[i := addr] else old(ip.addrs)
    {
      ghost var f := F(ip);
      MetaUsed(f);
      ok, addr := BAlloc();
      if !ok {
        return;
      }
      ip.addrs := ip.addrs[i := addr];
      owner := owner[addr := Slot(ip.inum, i)];
      assert F(ip) == Assign(f, ip.inum, i, addr);
      AssignKeeps(f, ip.inum, i, addr);
    }

    /** A new block for an entry of the indirect block. */
    method AllocEntry(ip: Ip, j: nat) returns (ok: bool, addr: nat)
      requires Valid(ip) && j < NINDIRECT && Assignable(F(ip), ip.inum, 13 + j)
      modifies this
      ensures Valid(ip) && Allocated(old(F(ip)), F(ip), ip.inum, 13 + j, ok, addr) && inodes == old(inodes)
    {
      ghost var f := F(ip);
      MetaUsed(f);
      ok, addr := BAlloc();
      if !ok {
        return;
      }
      var ib := ip.addrs[NDIRECT];
      blocks := blocks[ib := Store(blocks[ib], j, addr)];
      owner := owner[addr := Slot(ip.inum, 13 + j)];
      assert F(ip) == Assign(f, ip.inum, 13 + j, addr);
      AssignKeeps(f, ip.inum, 13 + j, addr);
    }

    /** The block of file block bn, allocated if it is not there. */
    method BMap(ip: Ip, bn: nat) returns (ok: bool, addr: nat)
      requires Valid(ip) && ip.typ != 0 && bn < MAXFILE
      modifies this, ip`addrs
      ensures Valid(ip) && ip.inum == old(ip.inum) && Extends(old(F(ip)), F(ip), ip.inum) && inodes == old(inodes)
      ensures ok ==> addr == Ptr(F(ip), ip.inum, SlotOf(bn)) && 0 < addr < |blocks|
      ensures !ok ==> forall b :: 0 <= b < |used| ==> used[b]
      ensures old(Ptr(F(ip), ip.inum, SlotOf(bn))) != 0 ==> ok && F(ip) == old(F(ip))
      ensures Gained(old(ip.addrs), ip.addrs, Top(bn)) && (ok ==> ip.addrs[Top(bn)] != 0)
      ensures !ok && bn < NDIRECT ==> F(ip) == old(F(ip))
    {
      hide Extends, Inv;
      ghost var f, n := F(ip), ip.inum;
      ExtendsSame(f, n);
      ShapeOf(f);
      PtrFacts(f, n, SlotOf(bn));
      if bn < NDIRECT {
        addr := ip.addrs[bn];
        if addr == 0 {
          ok, addr := AllocDirect(ip, bn);
          AllocatedExtends(f, F(ip), n, bn, ok, addr);
          return;
        }
        return true, addr;
      }
      ok, addr := BMapIndirect(ip, bn - NDIRECT);
    }

    method BMapIndirect(ip: Ip, j: nat) returns (ok: bool, addr: nat)
      requires Valid(ip) && ip.typ != 0 && j < NINDIRECT
      modifies this, ip`addrs
      ensures Valid(ip) && ip.inum == old(ip.inum) && Extends(old(F(ip)), F(ip), ip.inum) && inodes == old(inodes)
      ensures ok ==> addr == Ptr(F(ip), ip.inum, 13 + j) && 0 < addr < |blocks|
      ensures !ok ==> forall b :: 0 <= b < |used| ==> used[b]
      ensures old(Ptr(F(ip), ip.inum, 13 + j)) != 0 ==> ok && F(ip) == old(F(ip))
      ensures Gained(old(ip.addrs), ip.addrs, NDIRECT) && (ok ==> ip.addrs[NDIRECT] != 0)
    {
      hide Extends, Inv, Entry;
      ghost var f, n := F(ip), ip.inum;
      ExtendsSame(f, n);
      ShapeOf(f);
      addr := ip.addrs[NDIRECT];
      if addr == 0 {
        ok, addr := AllocDirect(ip, NDIRECT);
        AllocatedExtends(f, F(ip), n, NDIRECT, ok, addr);
        if !ok {
          return;
        }
      }
      ghost var t := F(ip);
      ShapeOf(t);
      PtrFacts(t, n, NDIRECT);
      PtrFacts(t, n, 13 + j);
      ok, addr := true, Entry(blocks[addr], j);
      if addr == 0 {
        ok, addr := AllocEntry(ip, j);
        AllocatedExtends(t, F(ip), n, 13 + j, ok, addr);
        ExtendsTrans(f, t, F(ip), n);
      }
    }

    // ---- readi and writei ----

    method IUpdate(ip: Ip)
      requires ip.inum < |inodes|
      modifies this
      ensures F(ip) == old(F(ip)) && inodes == old(inodes)[ip.inum := ip.Value()] && used == old(used)
      ensures blocks == old(blocks) && owner == old(owner)
    {
      inodes := inodes[ip.inum := ip.Value()];
    }

    /** One iteration of writei's loop: the next bytes, up to the end of a block. */
    method WriteChunk(ip: Ip, at: nat, y: seq<Byte>, ghost f: Fs, ghost off: nat, ghost x: seq<Byte>) returns (ok: bool)
      requires Valid(ip) && ip.typ != 0 && at == off + |x| < MAXFILE * BSIZE && at % BSIZE + |y| <= BSIZE
      requires Writes(f, F(ip), ip.inum, off, x)
      modifies this, ip`addrs
      ensures Valid(ip) && ip.inum == old(ip.inum) && ip.typ == old(ip.typ) && ip.size == old(ip.size)
      ensures inodes == old(inodes)
      ensures ok ==> Writes(f, F(ip), ip.inum, off, x + y)
      ensures !ok ==> forall b :: 0 <= b < |used| ==> used[b]
    {
      hide Inv, Extends, Writes, Ptr;
      ghost var t := F(ip);
      var b: nat;
      ok, b := BMap(ip, at / BSIZE);
      ghost var u := F(ip);
      ExtendsMeta(t, u, ip.inum);
      if !ok {
        return;
      }
      ShapeOf(u);
      HasByteOf(u, ip.inum, at);
      WritesMore(f, t, u, ip.inum, off, x, y);
      SetBlockKeeps(u, b, Splice(blocks[b], at % BSIZE, y));
      blocks := blocks[b := Splice(blocks[b], at % BSIZE, y)];
      assert F(ip) == SetBlock(u, b, Splice(u.blocks[b], at % BSIZE, y));
    }

    /** Splices src into the file at off, which may extend it; every other file is as it was. */
    method WriteI(ip: Ip, off: nat, src: seq<Byte>) returns (ok: bool, r: int)
      requires Valid(ip) && ip.typ != 0 && ip.size <= MAXFILE * BSIZE && off < WRAP && |src| < WRAP
      modifies this, ip`addrs, ip`size
      ensures Valid(ip) && ip.inum == old(ip.inum)
      ensures r == -1 <==> off > old(ip.size) || off + |src| > MAXFILE * BSIZE
      ensures r == -1 ==> ok && F(ip) == old(F(ip)) && inodes == old(inodes)
      ensures ok && r != -1 ==>
        && r == |src| && old(off <= |Contents(F(ip), ip.inum)|)
        && (old(Dense(F(ip), ip.inum)) ==> Dense(F(ip), ip.inum))
        && Contents(F(ip), ip.inum) == SpliceFile(old(Contents(F(ip), ip.inum)), off, src)
        && (forall m: nat :: m < |inodes| && m != ip.inum ==> SameFile(old(F(ip)), F(ip), m))
        && (src != [] ==> inodes == old(inodes)[ip.inum := ip.Value()])
      ensures ok && r != -1 && src != [] ==> D() == F(ip)
      ensures !ok ==> forall b :: 0 <= b < |used| ==> used[b]
    {
      hide Inv, Writes, Dense, Contents, HasByte, SpliceFile, SameFile;
      ghost var f, n := F(ip), ip.inum;
      ok := true;
      if off > ip.size || (off + |src|) % WRAP < off {
        return true, -1;
      }
      if off + |src| > MAXFILE * BSIZE {
        return true, -1;
      }
      r := |src|;
      var tot := 0;
      WritesStart(f, n, off);
      while tot < |src|
        invariant Valid(ip) && ip.inum == n && ip.typ == old(ip.typ) && ip.size == old(ip.size) && inodes == old(inodes)
        invariant tot <= |src| && Writes(f, F(ip), n, off, src[..tot])
      {
        var m := ChunkLen(off + tot, |src| - tot);
        ok := WriteChunk(ip, off + tot, src[tot..tot + m], f, off, src[..tot]);
        if !ok {
          return;
        }
        assert src[..tot] + src[tot..tot + m] == src[..tot + m];
        tot := tot + m;
      }
      assert src[..tot] == src;
      ghost var t := F(ip);
      ShapeOf(t);
      ghost var size := if off + |src| > f.inodes[n].size then off + |src| else f.inodes[n].size;
      WritesContents(f, t, n, off, src);
      WritesOthers(f, t, n, off, src, size);
      WithSizeKeeps(t, n, size);
      ghost var u := WithSize(t, n, size);
      if |src| > 0 {
        if off + tot > ip.size {
          ip.size := off + tot;
        }
        assert F(ip) == u;
        IUpdate(ip);
      }
      assert F(ip) == u;
    }

    /** One iteration of readi's loop: bytes of one block, which is allocated if there is a hole. */
    method ReadPart(ip: Ip, at: nat, m: nat) returns (ok: bool, part: seq<Byte>)
      requires Valid(ip) && ip.typ != 0 && at + m <= ip.size <= MAXFILE * BSIZE && 0 < m <= BSIZE - at % BSIZE
      modifies this, ip`addrs
      ensures Valid(ip) && inodes == old(inodes) && ip.inum == old(ip.inum) && Extends(old(F(ip)), F(ip), ip.inum)
      ensures ok ==> part == Contents(F(ip), ip.inum)[at..at + m]
      ensures !ok ==> forall b :: 0 <= b < |used| ==> used[b]
      ensures old(Dense(F(ip), ip.inum)) ==> ok && F(ip) == old(F(ip))
      ensures Gained(old(ip.addrs), ip.addrs, Top(at / BSIZE)) && (ok ==> ip.addrs[Top(at / BSIZE)] != 0)
      ensures !ok && at / BSIZE < NDIRECT ==> F(ip) == old(F(ip))
    {
      hide Inv, Contents, Extends, Ptr;
      ghost var f, n := F(ip), ip.inum;
      if Dense(f, n) { DenseBlock(f, n, at); }
      hide Dense;
      var b: nat;
      ok, b := BMap(ip, at / BSIZE);
      if !ok {
        return false, [];
      }
      ExtendsMeta(f, F(ip), n);
      ShapeOf(F(ip));
      HasByteOf(F(ip), n, at);
      ReadChunk(F(ip), n, at, m);
      part := blocks[b][at % BSIZE..at % BSIZE + m];
    }

    /** Some owner map makes the disk, with its inodes, a file system in order. */
    ghost predicate OwnedOnDisk()
      reads this
    {
      exists o :: Inv(Fs(inodes, used, blocks, o, start))
    }

    /** The bytes of the file from off, at most n and at most to its end; holes read as zeros. A hole
        gets its block in the in-memory inode only: the inode on disk is not updated, and so block
        ownership is lost on disk exactly when a direct or indirect pointer to the range was missing. */
    method ReadI(ip: Ip, off: nat, n: nat) returns (ok: bool, r: int, dst: seq<Byte>)
      requires Valid(ip) && ip.typ != 0 && ip.size <= MAXFILE * BSIZE && off < WRAP && n < WRAP
      modifies this, ip`addrs
      ensures Valid(ip) && inodes == old(inodes) && ip.inum == old(ip.inum) && Reads(old(F(ip)), F(ip), ip.inum)
      ensures r == -1 <==> off > old(ip.size) || off + n >= WRAP
      ensures r == -1 ==> ok && F(ip) == old(F(ip))
      ensures r != -1 ==> off <= old(ip.size)
      ensures ok && r != -1 ==> r == |dst|
      ensures ok && r != -1 ==>
                dst == old(Contents(F(ip), ip.inum))[off..if off + n > old(ip.size) then old(ip.size) else off + n]
      ensures !ok ==> (forall b :: 0 <= b < |used| ==> used[b]) && !old(Dense(F(ip), ip.inum))
      ensures old(Lags(inodes[ip.inum], ip.Value())) ==>
                Lags(inodes[ip.inum], ip.Value()) && (OwnedOnDisk() <==> inodes[ip.inum] == ip.Value())
      ensures ok && r != -1 && old(inodes[ip.inum] == ip.Value()) ==>
                (OwnedOnDisk() <==> Linked(old(ip.addrs), off, r))
      ensures !ok && off / BSIZE < NDIRECT && off % BSIZE + n <= BSIZE ==> F(ip) == old(F(ip))
    {
      hide Inv, Dense, Contents, HasByte, Extends, SameFile, Reads, ChunkLen, Lags, Reading, Linked;
      ghost var f, inum := F(ip), ip.inum;
      ok, dst := true, [];
      ReadsNothing(f, inum);
      ReadingStart(f, inum, off);
      DiskAfter(f, f, inum, inodes);
      WrapTest(off, n);
      if off > ip.size || (off + n) % WRAP < off {
        return true, -1, [];
      }
      var len := n;
      if off + n > ip.size {
        len := ip.size - off;
      }
      r := len;
      var tot := 0;
      while tot < len
        invariant Valid(ip) && inodes == old(inodes) && ip.inum == inum && ip.typ == old(ip.typ)
        invariant ip.size == old(ip.size) && tot <= len
        invariant Reading(f, F(ip), inum, off, tot, dst)
        invariant off % BSIZE + len <= BSIZE ==> tot == 0 || tot == len
      {
        ghost var t := F(ip);
        var m := ChunkLen(off + tot, len - tot);
        var part: seq<Byte>;
        ok, part := ReadPart(ip, off + tot, m);
        ReadingOn(f, t, F(ip), inum, off, tot, m, dst, ok, part);
        DiskAfter(f, F(ip), inum, inodes);
        if !ok {
          return false, r, [];
        }
        dst := dst + part;
        tot := tot + m;
      }
      ReadingEnds(f, F(ip), inum, off, tot, dst);
      DiskAfter(f, F(ip), inum, inodes);
    }

    // ---- itrunc, iput and ialloc ----

    /** Frees one block of the inode itself. */
    method FreeDirect(ip: Ip, i: nat)
      requires Valid(ip) && i <= NDIRECT && Droppable(F(ip), ip.inum, i)
      modifies this, ip`addrs
      ensures Valid(ip) && ip.inum == old(ip.inum) && inodes == old(inodes) && Trims(old(F(ip)), F(ip), ip.inum)
      ensures KeptBesides(old(ip.Value()), ip.Value()) && ip.addrs == old(ip.addrs)[i := 0] && blocks == old(blocks)
      ensures old(ip.addrs)[i] !in owner
    {
      ghost var f := F(ip);
      PtrFacts(f, ip.inum, i);
      DropKeeps(f, ip.inum, i);
      DropTrims(f, ip.inum, i);
      hide Inv, Trims;
      var b := ip.addrs[i];
      BFree(b);
      ip.addrs := ip.addrs[i := 0];
      owner := owner - {b};
      assert F(ip) == Drop(f, ip.inum, i);
    }

    /** Frees every entry of the indirect block, whose content is left as it is; `view` is the disk
        with those entries cleared. */
    method FreeEntries(ip: Ip) returns (ghost view: Fs)
      requires Valid(ip) && Shape(F(ip)) && |ip.addrs| == 13 && ip.addrs[NDIRECT] != 0
      modifies this
      ensures ip.inum < |inodes| && inodes == old(inodes) && blocks == old(blocks)
      ensures Inv(view) && Trims(old(F(ip)), view, ip.inum) && |view.blocks| == |blocks| && view.inodes == F(ip).inodes
      ensures var ib := ip.addrs[NDIRECT]; ib < |blocks| && F(ip) == SetBlock(view, ib, blocks[ib])
      ensures forall k :: NDIRECT < k < NSLOTS ==> Ptr(view, ip.inum, k) == 0
    {
      hide Inv, Trims, Store, Entry;
      ghost var f, n, ib := F(ip), ip.inum, ip.addrs[NDIRECT];
      PtrFacts(f, n, NDIRECT);
      view := f;
      TrimsSame(f, n);
      var a := blocks[ip.addrs[NDIRECT]];
      assert SetBlock(view, ib, a) == f;
      for j := 0 to NINDIRECT
        invariant inodes == old(inodes) && blocks == old(blocks) && ip.inum == n
        invariant Inv(view) && Trims(f, view, n) && Shape(view) && |view.blocks| == |blocks| && view.inodes == f.inodes
        invariant F(ip) == SetBlock(view, ib, a)
        invariant forall k :: 13 <= k < 13 + j ==> Ptr(view, n, k) == 0
        invariant forall k :: 13 + j <= k < NSLOTS ==> Ptr(view, n, k) == Entry(a, k - 13)
      {
        if Entry(a, j) != 0 {
          ghost var v := view;
          assert Ptr(v, n, 13 + j) == Entry(a, j);
          DropOne(v, n, 13 + j);
          DropEntries(v, n, 13 + j);
          BFree(Entry(a, j));
          owner := owner - {Entry(a, j)};
          view := Drop(v, n, 13 + j);
          TrimsTrans(f, v, view, n);
        }
      }
    }

    /** The indirect block, if there is one, and all its entries. */
    method FreeIndirect(ip: Ip)
      requires Valid(ip) && Shape(F(ip)) && |ip.addrs| == 13
      modifies this, ip`addrs
      ensures Valid(ip) && ip.inum == old(ip.inum) && inodes == old(inodes) && Trims(old(F(ip)), F(ip), ip.inum)
      ensures KeptBesides(old(ip.Value()), ip.Value()) && ip.addrs == old(ip.addrs)[NDIRECT := 0]
    {
      hide Inv, Trims, Entry;
      ghost var f, n := F(ip), ip.inum;
      TrimsSame(f, n);
      if ip.addrs[NDIRECT] != 0 {
        var ib := ip.addrs[NDIRECT];
        ghost var view := FreeEntries(ip);
        ShapeOf(view);
        IndirectGone(f, view, n, ib, blocks[ib]);
        BFree(ib);
        ip.addrs := ip.addrs[NDIRECT := 0];
        owner := owner - {ib};
        assert F(ip) == SetBlock(Drop(view, n, NDIRECT), ib, blocks[ib]);
      }
    }

    /** Frees every block of the file, and no other. */
    method ITrunc(ip: Ip)
      requires Valid(ip)
      modifies this, ip`addrs, ip`size
      ensures Valid(ip) && ip.inum == old(ip.inum) && inodes == old(inodes)[ip.inum := ip.Value()]
      ensures ip.size == 0 && ip.addrs == seq(13, _ => 0) && ip.typ == old(ip.typ) && ip.nlink == old(ip.nlink)
      ensures owner == map b | b in old(owner) && old(owner)[b].n != ip.inum :: old(owner)[b]
      ensures forall m: nat :: m < |inodes| && m != ip.inum ==> SameFile(old(F(ip)), F(ip), m)
    {
      hide Inv, Trims, SameFile;
      ghost var f, n := F(ip), ip.inum;
      TrimsSame(f, n);
      for i := 0 to NDIRECT
        invariant Valid(ip) && ip.inum == n && inodes == old(inodes) && Trims(f, F(ip), n)
        invariant KeptBesides(old(ip.Value()), ip.Value())
        invariant |ip.addrs| == |old(ip.addrs)| && forall k :: 0 <= k < i && k < |ip.addrs| ==> ip.addrs[k] == 0
      {
        ghost var t := F(ip);
        ShapeOf(t);
        assert |t.inodes[n].addrs| == 13;
        if ip.addrs[i] != 0 {
          FreeDirect(ip, i);
          TrimsTrans(f, t, F(ip), n);
        }
      }
      ghost var t := F(ip);
      ShapeOf(t);
      assert |t.inodes[n].addrs| == 13;
      FreeIndirect(ip);
      ghost var u := F(ip);
      TrimsTrans(f, t, u, n);
      assert ip.addrs == seq(13, _ => 0);
      ip.size := 0;
      assert F(ip) == WithSize(u, n, 0);
      WithSizeKeeps(u, n, 0);
      TruncEnd(f, u, n);
      IUpdate(ip);
    }

    /** The file system as the disk has it. */
    ghost function D(): Fs
      reads this
    {
      Fs(inodes, used, blocks, owner, start)
    }

    /** Drops a reference; the last one to a file without links frees the file and its inode. An
        inode that was never locked is not looked at. The inode in memory may have pointers that the
        one on disk lacks; freeing the file gives their blocks back too. */
    method IPut(ip: Ip)
      requires ip.ref > 0 && ip.inum < |inodes|
      requires if ip.valid then Valid(ip) && ip.typ != 0 && Lags(inodes[ip.inum], ip.Value()) else Inv(D())
      modifies this, ip
      ensures ip.inum == old(ip.inum) && ip.ref == old(ip.ref) - 1 && |inodes| == old(|inodes|)
      ensures var frees := old(ip.ref == 1 && ip.valid && ip.nlink == 0);
        && (!frees ==> D() == old(D()) && ip.valid == old(ip.valid) && ip.Value() == old(ip.Value()))
        && (frees ==> Inv(D()) && !ip.valid && inodes[ip.inum].typ == 0 && inodes[ip.inum].addrs == seq(13, _ => 0))
        && (frees ==> owner == map b | b in old(owner) && old(owner)[b].n != ip.inum :: old(owner)[b])
      ensures forall m: nat :: m < |inodes| && m != ip.inum ==> SameFile(old(D()), D(), m)
    {
      hide Inv, SameFile, Lags;
      ghost var d, n := D(), ip.inum;
      SameFiles(d, d, n);
      if ip.ref == 1 && ip.valid && ip.nlink == 0 {
        ghost var f := F(ip);
        ITrunc(ip);
        ghost var t := F(ip);
        FreedKeeps(f, t, n);
        ip.typ := 0;
        assert F(ip) == Untyped(t, n);
        IUpdate(ip);
        assert F(ip) == D();
        OthersOnDisk(d, f, D(), n);
        ip.valid := false;
      }
      ip.ref := ip.ref - 1;
    }

    /** The first free inode becomes one of the given type, without links, size or blocks; inode 0
        when there is none. */
    method IAlloc(typ: int) returns (inum: nat)
      requires Inv(Fs(inodes, used, blocks, owner, start)) && typ != 0
      modifies this`inodes
      ensures Inv(Fs(inodes, used, blocks, owner, start))
      ensures inum == 0 <==> forall n :: 1 <= n < |old(inodes)| ==> old(inodes)[n].typ != 0
      ensures inum == 0 ==> inodes == old(inodes)
      ensures inum != 0 ==> inum < |old(inodes)| && old(inodes)[inum].typ == 0
      ensures inum != 0 ==> forall n :: 1 <= n < inum ==> old(inodes)[n].typ != 0
      ensures inum != 0 ==> inodes == old(inodes)[inum := Inode(typ, 0, 0, seq(13, _ => 0))]
    {
      inum := 1;
      while inum < |inodes|
        invariant inodes == old(inodes) && 1 <= inum && forall n :: 1 <= n < inum && n < |inodes| ==> inodes[n].typ != 0
      {
        if inodes[inum].typ == 0 {
          NewInodeKeeps(Fs(inodes, used, blocks, owner, start), inum, typ, 0);
          inodes := inodes[inum := Inode(typ, 0, 0, seq(13, _ => 0))];
          return;
        }
        inum := inum + 1;
      }
      inum := 0;
    }

    /** ilock: the in-memory inode is read from disk when it is not valid. False: it has no type, and
        the code panics. */
    method ILock(ip: Ip) returns (ok: bool)
      requires ip.inum < |inodes| && ip.ref > 0
      modifies ip
      ensures ip.inum == old(ip.inum) && ip.ref == old(ip.ref) && ip.valid
      ensures ok <==> old(ip.valid) || inodes[ip.inum].typ != 0
      ensures ip.Value() == if old(ip.valid) then old(ip.Value()) else inodes[ip.inum]
      ensures !old(ip.valid) ==> F(ip) == D()
    {
      ok := true;
      if !ip.valid {
        var dip := inodes[ip.inum];
        ip.typ, ip.nlink, ip.size, ip.addrs := dip.typ, dip.nlink, dip.size, dip.addrs;
        ip.valid := true;
        ok := ip.typ != 0;
      }
      assert inodes[ip.inum := inodes[ip.inum]] == inodes;
    }
  }

  /** The other files read on disk as they do with the inode in memory. */
  lemma OthersOnDisk(d: Fs, f: Fs, t: Fs, n: nat)
    requires n < |d.inodes| == |f.inodes| && f == WithInode(d, n, f.inodes[n], d.owner)
    requires Inv(f) && Lags(d.inodes[n], f.inodes[n])
    requires forall m: nat :: m < |f.inodes| && m != n ==> SameFile(f, t, m)
    ensures forall m: nat :: m < |d.inodes| && m != n ==> SameFile(d, t, m)
  {
    assert WithInode(f, n, d.inodes[n], d.owner) == d;
    hide SameFile;
    forall m: nat | m < |d.inodes| && m != n ensures SameFile(d, t, m) {
      OtherOnDisk(d, f, n, m);
      SameFileTrans(d, f, t, m);
    }
  }

  lemma OtherOnDisk(d: Fs, f: Fs, n: nat, m: nat)
    requires n < |d.inodes| == |f.inodes| && d == WithInode(f, n, d.inodes[n], d.owner)
    requires Inv(f) && Lags(d.inodes[n], f.inodes[n])
    requires m < |f.inodes| && m != n
    ensures SameFile(d, f, m)
  {
    forall o: nat ensures SameByte(d, f, m, o) {
      if o < MAXFILE * BSIZE { LagPtr(f, n, d.inodes[n], d.owner, m, SlotOf(o / BSIZE)); }
    }
    SameBytesSize(d, f, m);
  }

  lemma SameFileTrans(f: Fs, t: Fs, u: Fs, m: nat)
    requires SameFile(f, t, m) && SameFile(t, u, m) && m < |t.inodes|
    ensures SameFile(f, u, m)
  {
    hide Dense, Contents;
  }

  /** The result of giving a pointer a block: the first free one, zeroed. */
  ghost predicate Allocated(f: Fs, t: Fs, n: nat, i: nat, ok: bool, addr: nat) {
    if ok then Assignable(f, n, i) && FreeBlock(f, addr) && t == Assign(f, n, i, addr)
    else t == f && forall b :: 0 <= b < |f.used| ==> f.used[b]
  }

  lemma MetaUsed(f: Fs)
    requires Inv(f)
    ensures Shape(f) && forall b :: 0 <= b < f.start ==> f.used[b]
  {}

  lemma AllocatedExtends(f: Fs, t: Fs, n: nat, i: nat, ok: bool, addr: nat)
    requires Inv(f) && Allocated(f, t, n, i, ok, addr) && n < |f.inodes|
    ensures Extends(f, t, n) && Shape(t)
    ensures ok ==> Ptr(t, n, i) == addr && addr != 0 && addr < |t.blocks| && t.inodes[n].typ == f.inodes[n].typ
    ensures ok && i <= NDIRECT ==> t.inodes[n].addrs[i] == addr
  {
    if ok {
      AssignExtends(f, n, i, addr);
      AssignPtr(f, n, i, addr, n, i);
    } else {
      ExtendsSame(f, n);
    }
  }

  lemma ExtendsMeta(t: Fs, u: Fs, n: nat)
    requires Extends(t, u, n)
    ensures |u.inodes| == |t.inodes| && n < |t.inodes| && KeptBesides(t.inodes[n], u.inodes[n])
  {}

  /** readi on file n has read the first tot bytes from off: from f to t, holes were filled, and the
      inode has new pointers exactly when some towards those bytes were missing. */
  ghost predicate Reading(f: Fs, t: Fs, n: nat, off: nat, tot: nat, dst: seq<Byte>) {
    && Reads(f, t, n) && n < |f.inodes| == |t.inodes| && off + tot <= f.inodes[n].size
    && dst == Contents(f, n)[off..off + tot]
    && Grew(f.inodes[n].addrs, t.inodes[n].addrs) && KeptBesides(f.inodes[n], t.inodes[n])
    && (t.inodes[n].addrs == f.inodes[n].addrs <==> Linked(f.inodes[n].addrs, off, tot)) && (tot == 0 ==> t == f)
  }

  lemma ReadingStart(f: Fs, n: nat, off: nat)
    requires Inv(f) && n < |f.inodes| && Reads(f, f, n)
    ensures off <= f.inodes[n].size ==> Reading(f, f, n, off, 0, [])
    ensures KeptBesides(f.inodes[n], f.inodes[n]) && Grew(f.inodes[n].addrs, f.inodes[n].addrs)
  {
    hide Reads;
    AddrsOf(f, n);
    LinkedNone(f.inodes[n].addrs, off);
  }

  lemma ReadingOn(f: Fs, t: Fs, u: Fs, n: nat, off: nat, tot: nat, m: nat, dst: seq<Byte>, ok: bool, part: seq<Byte>)
    requires Reading(f, t, n, off, tot, dst) && Extends(t, u, n) && (Dense(t, n) ==> ok && u == t) && Inv(u)
    requires n < |u.inodes| && off + tot + m <= f.inodes[n].size && 0 < m <= BSIZE - (off + tot) % BSIZE
    requires var i := Top((off + tot) / BSIZE);
             Gained(t.inodes[n].addrs, u.inodes[n].addrs, i) && (ok ==> u.inodes[n].addrs[i] != 0)
    requires ok ==> part == Contents(u, n)[off + tot..off + tot + m]
    ensures Reads(f, u, n) && |u.inodes| == |f.inodes| && (Dense(f, n) ==> ok)
    ensures KeptBesides(f.inodes[n], u.inodes[n]) && Grew(f.inodes[n].addrs, u.inodes[n].addrs)
    ensures ok ==> Reading(f, u, n, off, tot + m, dst + part)
    ensures tot == 0 ==> t == f
  {
    hide Inv, Extends, Reads, Dense, Contents, Linked;
    ReadsOn(f, t, u, n);
    GrewOn(f.inodes[n].addrs, t.inodes[n].addrs, u.inodes[n].addrs, Top((off + tot) / BSIZE));
    LinkedMore(f.inodes[n].addrs, off, tot, m);
    SliceMore(Contents(f, n), off, tot, m);
  }

  lemma ReadingEnds(f: Fs, t: Fs, n: nat, off: nat, tot: nat, dst: seq<Byte>)
    requires Reading(f, t, n, off, tot, dst)
    ensures Reads(f, t, n) && n < |f.inodes| == |t.inodes| && off + tot <= f.inodes[n].size
    ensures dst == Contents(f, n)[off..off + tot] && |dst| == tot
    ensures KeptBesides(f.inodes[n], t.inodes[n]) && Grew(f.inodes[n].addrs, t.inodes[n].addrs)
    ensures t.inodes[n] == f.inodes[n] <==> Linked(f.inodes[n].addrs, off, tot)
  {
    hide Reads, Linked;
  }

  /** Whether the inode on disk, as far as it goes, is as good as the one in memory. */
  lemma DiskAfter(f: Fs, t: Fs, n: nat, disk: seq<Inode>)
    requires Inv(t) && n < |disk| == |t.inodes| && n < |f.inodes| && t.inodes == disk[n := t.inodes[n]]
    requires KeptBesides(f.inodes[n], t.inodes[n]) && Grew(f.inodes[n].addrs, t.inodes[n].addrs)
    ensures Lags(disk[n], f.inodes[n]) ==> Lags(disk[n], t.inodes[n])
    ensures Lags(disk[n], f.inodes[n]) ==>
              ((exists o :: Inv(Fs(disk, t.used, t.blocks, o, t.start))) <==> disk[n] == t.inodes[n])
    ensures Lags(f.inodes[n], f.inodes[n])
  {
    hide Inv, Lags;
    LagSame(f.inodes[n]);
    LagOn(disk[n], f.inodes[n], t.inodes[n]);
    LagDisk(t, disk, n, t.inodes[n]);
  }

  /** Where the inode itself holds the pointer to file block bn, or to its indirect block. */
  function Top(bn: nat): nat { if bn < NDIRECT then bn else NDIRECT }

  /** Pointer i, if it was missing, may be there; the others are as they were. */
  predicate Gained(a: seq<nat>, b: seq<nat>, i: nat) {
    |a| == |b| == 13 && i < 13 && (a[i] != 0 ==> b[i] == a[i]) && forall k :: 0 <= k < 13 && k != i ==> b[k] == a[k]
  }

  predicate Grew(a: seq<nat>, b: seq<nat>) {
    |a| == |b| == 13 && forall k :: 0 <= k < 13 && a[k] != 0 ==> b[k] == a[k]
  }

  ghost predicate LinkedAt(addrs: seq<nat>, o: nat) { |addrs| == 13 && addrs[Top(o / BSIZE)] != 0 }

  /** The inode's own pointers towards all bytes of a range are there. */
  ghost predicate Linked(addrs: seq<nat>, off: nat, n: int) {
    forall o: nat :: off <= o < off + n ==> LinkedAt(addrs, o)
  }

  lemma LinkedNone(addrs: seq<nat>, off: nat)
    ensures Linked(addrs, off, 0)
  {}

  lemma LinkedMore(addrs: seq<nat>, off: nat, tot: nat, m: nat)
    requires 0 < m <= BSIZE - (off + tot) % BSIZE && |addrs| == 13
    ensures Linked(addrs, off, tot + m) <==> Linked(addrs, off, tot) && addrs[Top((off + tot) / BSIZE)] != 0
  {
    forall o: nat | off + tot <= o < off + tot + m ensures o / BSIZE == (off + tot) / BSIZE {}
    assert Linked(addrs, off, tot + m) ==> LinkedAt(addrs, off + tot);
    assert Linked(addrs, off, tot + m) ==> forall o: nat :: off <= o < off + tot ==> LinkedAt(addrs, o);
  }

  lemma GrewOn(a: seq<nat>, b: seq<nat>, c: seq<nat>, i: nat)
    requires Grew(a, b) && Gained(b, c, i)
    ensures Grew(a, c) && (c[i] != 0 ==> (c == a <==> b == a && a[i] != 0))
  {
    assert b == a && a[i] != 0 ==> c == a;
    assert c == a && c[i] != 0 ==> b == a;
  }

  lemma AddrsOf(f: Fs, n: nat)
    requires Inv(f) && n < |f.inodes|
    ensures |f.inodes[n].addrs| == 13 && Grew(f.inodes[n].addrs, f.inodes[n].addrs)
  {}

  lemma LagSame(v: Inode)
    ensures Lags(v, v)
  {}

  lemma LagOn(a: Inode, b: Inode, c: Inode)
    requires KeptBesides(b, c) && Grew(b.addrs, c.addrs)
    ensures Lags(a, b) ==> Lags(a, c)
  {}

  lemma LagDisk(f: Fs, disk: seq<Inode>, n: nat, v: Inode)
    requires Inv(f) && n < |disk| && f.inodes == disk[n := v]
    ensures Lags(disk[n], v) ==> ((exists o :: Inv(Fs(disk, f.used, f.blocks, o, f.start))) <==> disk[n] == v)
  {
    hide Inv, Lags;
    assert f.inodes[n := disk[n]] == disk;
    assert forall o :: WithInode(f, n, disk[n], o) == Fs(disk, f.used, f.blocks, o, f.start);
    if Lags(disk[n], v) {
      LagIff(f, n, disk[n]);
      assert (exists o :: Inv(WithInode(f, n, disk[n], o))) <==>
             exists o :: Inv(Fs(disk, f.used, f.blocks, o, f.start));
    }
  }

  /** How much of `left` bytes fits in the block of offset at. */
  function ChunkLen(at: nat, left: nat): (m: nat)
    ensures m <= left && (left > 0 ==> 0 < m <= BSIZE - at % BSIZE) && (at % BSIZE + left <= BSIZE ==> m == left)
  {
    if left < BSIZE - at % BSIZE then left else BSIZE - at % BSIZE
  }

  lemma WrapTest(off: nat, n: nat)
    requires off < WRAP && n < WRAP
    ensures (off + n) % WRAP < off <==> off + n >= WRAP
  {}

  /** From f to t, file n may have got blocks where it had holes; every file reads as before. */
  ghost predicate Reads(f: Fs, t: Fs, n: nat) {
    && Extends(f, t, n) && (forall m: nat :: m < |f.inodes| ==> SameFile(f, t, m)) && (Dense(f, n) ==> t == f)
  }

  lemma ReadsNothing(f: Fs, n: nat)
    requires Inv(f) && n < |f.inodes|
    ensures Reads(f, f, n)
  {
    hide Inv, Dense, Contents;
    ShapeOf(f);
    ExtendsSame(f, n);
    ExtendsContents(f, f, n);
  }

  lemma ReadsOn(f: Fs, t: Fs, u: Fs, n: nat)
    requires Reads(f, t, n) && Extends(t, u, n) && (Dense(t, n) ==> u == t) && Inv(u)
    ensures Reads(f, u, n) && |u.inodes| == |t.inodes| == |f.inodes| && n < |f.inodes|
    ensures KeptBesides(t.inodes[n], u.inodes[n])
    ensures Contents(u, n) == Contents(f, n) && (Dense(f, n) ==> Dense(t, n))
  {
    hide Inv, HasByte, ByteAt;
    ShapeOf(u);
    ExtendsTrans(f, t, u, n);
    ExtendsContents(f, u, n);
    assert SameFile(f, u, n) && SameFile(f, t, n);
  }

  lemma DenseBlock(f: Fs, n: nat, o: nat)
    requires Dense(f, n) && o < f.inodes[n].size
    ensures o / BSIZE < MAXFILE && 0 < Ptr(f, n, SlotOf(o / BSIZE)) < |f.blocks|
  {
    assert HasByte(f, n, o);
  }

  lemma ReadChunk(f: Fs, n: nat, o: nat, m: nat)
    requires HasByte(f, n, o) && o + m <= f.inodes[n].size && o % BSIZE + m <= BSIZE
    ensures f.blocks[Ptr(f, n, SlotOf(o / BSIZE))][o % BSIZE..o % BSIZE + m] == Contents(f, n)[o..o + m]
  {
    var part := f.blocks[Ptr(f, n, SlotOf(o / BSIZE))][o % BSIZE..o % BSIZE + m];
    forall i | 0 <= i < m ensures part[i] == Contents(f, n)[o..o + m][i] {
      assert (o + i) / BSIZE == o / BSIZE && (o + i) % BSIZE == o % BSIZE + i;
      assert Contents(f, n)[o + i] == ByteAt(f, n, o + i);
    }
  }

  lemma SliceMore(c: seq<Byte>, off: nat, tot: nat, m: nat)
    requires off + tot + m <= |c|
    ensures c[off..off + tot] + c[off + tot..off + tot + m] == c[off..off + tot + m]
  {}

  /** Dropping an entry of the indirect block. */
  lemma DropOne(v: Fs, n: nat, i: nat)
    requires Inv(v) && Shape(v) && n < |v.inodes| && NDIRECT < i < NSLOTS && Ptr(v, n, i) != 0
    ensures v.inodes[n].addrs[NDIRECT] < |v.blocks| && Ptr(v, n, i) < |v.used| && v.used[Ptr(v, n, i)]
    ensures var t := Drop(v, n, i);
      && Inv(t) && Shape(t) && Trims(v, t, n) && t.inodes == v.inodes && |t.blocks| == |v.blocks|
      && t.used == v.used[Ptr(v, n, i) := false] && t.owner == v.owner - {Ptr(v, n, i)} && t.start == v.start
      && t.blocks == v.blocks[v.inodes[n].addrs[NDIRECT] := t.blocks[v.inodes[n].addrs[NDIRECT]]]
  {
    hide Inv, Trims, Entry, Store;
    PtrFacts(v, n, i);
    DropKeeps(v, n, i);
    DropTrims(v, n, i);
    ShapeOf(Drop(v, n, i));
  }

  lemma DropEntries(v: Fs, n: nat, i: nat)
    requires Inv(v) && Shape(v) && n < |v.inodes| && NDIRECT < i < NSLOTS && Ptr(v, n, i) != 0
    ensures v.inodes[n].addrs[NDIRECT] < |v.blocks| && Ptr(v, n, i) < |v.used|
    ensures var t := Drop(v, n, i);
      Shape(t) && forall k :: 13 <= k < NSLOTS ==> Ptr(t, n, k) == if k == i then 0 else Ptr(v, n, k)
  {
    hide Inv;
    DropPtr(v, n, i, n, i);
    forall k | 13 <= k < NSLOTS ensures Ptr(Drop(v, n, i), n, k) == if k == i then 0 else Ptr(v, n, k) {
      hide Ptr, Drop;
      DropPtr(v, n, i, n, k);
    }
  }

  /** The last step of freeing the indirect block. */
  lemma IndirectGone(f: Fs, view: Fs, n: nat, ib: nat, x: Block)
    requires Inv(view) && Trims(f, view, n) && Shape(view) && n < |view.inodes|
    requires view.inodes[n].addrs[NDIRECT] == ib != 0
    requires forall k :: NDIRECT < k < NSLOTS ==> Ptr(view, n, k) == 0
    ensures ib < |view.used| && ib < |view.blocks| && view.used[ib]
    ensures var t := Drop(view, n, NDIRECT);
            ib < |t.blocks| && Inv(SetBlock(t, ib, x)) && Trims(f, SetBlock(t, ib, x), n)
  {
    hide Inv, Trims;
    PtrFacts(view, n, NDIRECT);
    DropKeeps(view, n, NDIRECT);
    DropTrims(view, n, NDIRECT);
    var t := Drop(view, n, NDIRECT);
    ShapeOf(t);
    UnownedTrims(t, n, ib, x);
    TrimsTrans(f, view, t, n);
    TrimsTrans(f, t, SetBlock(t, ib, x), n);
  }

  lemma SameFiles(f: Fs, t: Fs, n: nat)
    requires t == f
    ensures forall m: nat :: m < |f.inodes| && m != n ==> SameFile(f, t, m)
  {}

  lemma TruncEnd(f: Fs, u: Fs, n: nat)
    requires Trims(f, u, n) && Inv(u) && n < |u.inodes| && u.inodes[n].addrs == seq(13, _ => 0)
    ensures u.owner == map b | b in f.owner && f.owner[b].n != n :: f.owner[b]
    ensures forall m: nat :: m < |f.inodes| && m != n ==> SameFile(f, WithSize(u, n, 0), m)
  {
    ShapeOf(u);
    TrimmedOwner(f, u, n);
    hide Inv;
    var v := WithSize(u, n, 0);
    WithSizePtr(u, n, 0, n, 0);
    hide HasByte, ByteAt;
    forall m: nat | m < |f.inodes| && m != n ensures SameFile(f, v, m) {
      forall o: nat ensures SameByte(f, v, m, o) {
        assert SameByte(f, u, m, o);
        WithSizeByte(u, n, 0, m, o);
      }
      SameBytesSize(f, v, m);
    }
  }

  function Untyped(f: Fs, n: nat): Fs
    requires n < |f.inodes|
  {
    Fs(f.inodes[n := Inode(0, f.inodes[n].nlink, f.inodes[n].size, f.inodes[n].addrs)], f.used, f.blocks, f.owner,
       f.start)
  }

  lemma UntypedPtr(f: Fs, n: nat, m: nat, i: nat)
    requires Shape(f) && n < |f.inodes| && m < |f.inodes| && i < NSLOTS
    ensures Shape(Untyped(f, n)) && Ptr(Untyped(f, n), m, i) == Ptr(f, m, i)
  {}

  lemma FreedKeeps(f: Fs, t: Fs, n: nat)
    requires Inv(t) && n < |t.inodes| && t.inodes[n].addrs == seq(13, _ => 0) && |t.inodes| == |f.inodes|
    requires forall m: nat :: m < |f.inodes| && m != n ==> SameFile(f, t, m)
    ensures Inv(Untyped(t, n)) && forall m: nat :: m < |f.inodes| && m != n ==> SameFile(f, Untyped(t, n), m)
  {
    var u := Untyped(t, n);
    forall m: nat, k: nat | m < |u.inodes| && k < NSLOTS ensures PtrOk(u, m, k) {
      assert PtrOk(t, m, k);
      UntypedPtr(t, n, m, k);
    }
    forall c | c in u.owner ensures OwnerOk(u, c) {
      assert OwnerOk(t, c);
      UntypedPtr(t, n, t.owner[c].n, t.owner[c].i);
    }
    forall m: nat | m < |u.inodes| ensures FreeInodeOk(u, m) {
      assert FreeInodeOk(t, m);
    }
    hide Inv;
    forall m: nat | m < |f.inodes| && m != n ensures SameFile(f, u, m) {
      UntypedOthers(f, t, n, m);
    }
  }

  lemma UntypedOthers(f: Fs, t: Fs, n: nat, m: nat)
    requires SameFile(f, t, m) && Shape(t) && n < |t.inodes| && m < |t.inodes| && m != n
    ensures SameFile(f, Untyped(t, n), m)
  {
    UntypedPtr(t, n, m, 0);
    forall o: nat ensures SameByte(t, Untyped(t, n), m, o) {
      if o < MAXFILE * BSIZE { UntypedPtr(t, n, m, SlotOf(o / BSIZE)); }
    }
    SameBytesSize(t, Untyped(t, n), m);
  }
}
