/** What reading the root directory of an image of mkfs can do to the disk: mkfs may leave a hole there,
    and readi fills it without telling the disk's inode. */
module Holes {
  import opened FsSpec
  import opened FileSys
  import Mkfs

  /** One entry is read from the second block of the root directory: the block that this takes is used
      and belongs to no inode on disk. */
  method ReadRootHole() returns (ok: bool, vol: Volume, ip: Ip)
    ensures ok && vol.Valid(ip) && !vol.OwnedOnDisk()
  {
    hide Inv, Dense, Contents, Lags;
    var image, bits;
    ok, image, bits := Mkfs.RootWithHole();
    vol := new Volume(image.inodes, bits, image.blocks, image.start, image.owner);
    ip := new Ip(1);
    ok := vol.ILock(ip);
    assert vol.F(ip) == vol.D();
    ghost var addrs := ip.addrs;
    var r, dst;
    ok, r, dst := vol.ReadI(ip, BSIZE, 16);
    assert !LinkedAt(addrs, BSIZE);
  }
}
