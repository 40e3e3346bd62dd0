/** Inputs on which kernel/fs.c departs from what one would expect, on the image that mkfs makes: a write whose
    copy fails, and the hole in a root directory that fills its blocks. */
module FileExamples {
  import opened Prelude
  import opened Blocks
  import opened Bitmap
  import opened Inodes
  import opened FileSystems

  /** FSSIZE, and where mkfs puts the inodes, the bitmap and the data. */
  const IMAGE := Super(1000, 32, 45, 46)
  const NINODES := 200

  /** One file cannot have taken all blocks with two of its blocks. */
  lemma SomeFree(d: Disk, inodes: seq<Inode>, owner0: Owners, owner: Owners, i: nat, bn: nat)
    requires Ok(IMAGE, d, inodes, owner) && Extends(owner0, owner, i, bn) && forall x | x in owner0 :: x < 46
    ensures exists x: nat :: x < IMAGE.size && !Used(IMAGE, d, x)
  {
    hide Used;
    OneUse(IMAGE, d, inodes, owner);
    assert Used(IMAGE, d, 46) ==> 46 in owner && 46 !in owner0;
    assert Used(IMAGE, d, 47) ==> 47 in owner && 47 !in owner0;
    assert Used(IMAGE, d, 48) ==> 48 in owner && 48 !in owner0;
    assert !Used(IMAGE, d, 46) || !Used(IMAGE, d, 47) || !Used(IMAGE, d, 48);
  }

  lemma OnlyMeta(d: Disk, inodes: seq<Inode>, owner: Owners)
    requires Ok(IMAGE, d, inodes, owner) && forall x: nat | x < IMAGE.size :: Used(IMAGE, d, x) <==> x < 46
    ensures forall x | x in owner :: x < 46
  {
    hide Used;
    forall x | x in owner ensures x < 46 {
      assert OwnerOk(IMAGE, d, inodes, x, owner[x]);
    }
  }

  lemma OneBlock(d: Disk, ip: Inode)
    requires Addr(d, ip, 0) != 0
    ensures NoHoles(d, ip.(size := BSIZE)) && Addr(d, ip.(size := BSIZE), 0) == Addr(d, ip, 0)
  {
    hide Addr;
    forall bn: nat | bn * BSIZE < BSIZE ensures Addr(d, ip.(size := BSIZE), bn) != 0 {
      AddrOfMap(d, ip, bn, BSIZE);
    }
    AddrOfMap(d, ip, 0, BSIZE);
  }

  /** A file of one block, all zeroes, at the beginning of an operation. */
  method OneBlockFile() returns (fs: FileSystem)
    ensures fresh(fs) && fs.Valid() && fs.sb == IMAGE && fs.logged == {} && |fs.inodes| == NINODES
            && fs.inodes[1].size == BSIZE
    ensures NoHoles(fs.blocks, fs.inodes[1]) && Addr(fs.blocks, fs.inodes[1], 0) != 0
            && Addr(fs.blocks, fs.inodes[1], 1) == 0
    ensures forall x: nat | x < BSIZE :: ByteAt(fs.blocks, fs.inodes[1], x) == 0
    ensures exists x: nat :: x < IMAGE.size && !Used(IMAGE, fs.blocks, x)
  {
    hide Ok, Used, Addr, ByteAt, LoggedAll, Logs;
    fs := new FileSystem.Mkfs(IMAGE, NINODES);
    ghost var d, inodes, owner := fs.blocks, fs.inodes, fs.owner;
    OnlyMeta(fs.blocks, fs.inodes, fs.owner);
    EmptyBytes(d);
    var r := fs.Bmap(1, 0);
    SomeFree(fs.blocks, fs.inodes, owner, fs.owner, 1, 0);
    OnlyFirst(d, inodes, owner, fs.blocks, fs.inodes, fs.owner);
    ghost var ip := fs.inodes[1];
    SizeSetOk(IMAGE, fs.blocks, fs.inodes, fs.owner, 1, BSIZE);
    OneBlock(fs.blocks, ip);
    AddrOfMap(fs.blocks, ip, 1, BSIZE);
    forall x: nat | x < BSIZE ensures ByteAt(fs.blocks, ip.(size := BSIZE), x) == 0 {
      SizeNoByte(fs.blocks, ip, BSIZE, x);
      assert ByteAt(fs.blocks, fs.inodes[1], x) == ByteAt(d, inodes[1], x);
    }
    fs.inodes := fs.inodes[1 := fs.inodes[1].(size := BSIZE)];
    fs.logged := {};
  }

  lemma SizeNoByte(d: Disk, ip: Inode, size: nat, x: nat)
    ensures ByteAt(d, ip.(size := size), x) == ByteAt(d, ip, x)
  {
  }

  lemma EmptyBytes(d: Disk)
    ensures forall x: nat :: ByteAt(d, EMPTY, x) == 0
    ensures forall n: nat :: Addr(d, EMPTY, n) == 0
  {
  }

  /** Looking up block 0 gave the file no block 1. */
  lemma OnlyFirst(d: Disk, inodes: seq<Inode>, owner: Owners, d': Disk, inodes': seq<Inode>, owner': Owners)
    requires Ok(IMAGE, d, inodes, owner) && Mapped(IMAGE, d, inodes, owner, d', inodes', owner', 1, 0) && |inodes| > 1
    requires Addr(d, inodes[1], 1) == 0
    ensures Addr(d', inodes'[1], 1) == 0
  {
    hide Used, Addr, SameBytes;
    assert InodeOk(IMAGE, d', owner', 1, inodes'[1]);
    assert forall x | x in owner :: OwnerOk(IMAGE, d, inodes, x, owner[x]);
  }

  /** Two bytes written over zeroes, of which only the first can be read: the call succeeds, the first byte is
      in the file as every process reads it, and its block is not logged. */
  method TornWrite() returns (fs: FileSystem, r: Option<int>, ghost d: Disk)
    ensures fs.Valid() && r == Some(2) && |fs.inodes| == NINODES && fs.inodes[1].size == BSIZE
    ensures ByteAt(fs.blocks, fs.inodes[1], 0) == 1
    ensures |d| == |fs.blocks| && exists x: nat :: x < |d| && fs.blocks[x] != d[x] && x !in fs.logged
  {
    hide Ok, Used, Addr, ByteAt, Logs, WriteLogs, Written, NoHoles;
    fs := OneBlockFile();
    DiskSize(fs);
    d := fs.blocks;
    ghost var inodes := fs.inodes;
    IsTorn(d, fs.inodes[1]);
    r := fs.Writei(1, 0, [1, 1], 1);
    assert r.Some? by {
      assert forall bn: nat | bn * BSIZE < 2 :: bn == 0;
    }
    FirstByte(d, inodes, fs.blocks, fs.inodes);
    assert !LoggedAll(d, fs.blocks, {}, fs.logged);
    DiskSize(fs);
  }

  lemma DiskSize(fs: FileSystem)
    requires fs.Valid()
    ensures |fs.blocks| == fs.sb.size
  {
  }

  lemma IsTorn(d: Disk, ip: Inode)
    requires Addr(d, ip, 0) != 0 && ByteAt(d, ip, 0) == 0
    ensures Torn(d, ip, {}, 0, [1, 1], 1)
  {
    hide Addr, ByteAt;
    var src: seq<Byte> := [1, 1];
    assert Whole(0, 2, 1) == 0;
    assert src[0] != ByteAt(d, ip, 0 + 0);
  }

  lemma FirstByte(d: Disk, inodes: seq<Inode>, d': Disk, inodes': seq<Inode>)
    requires Written(d, inodes, d', inodes', 1, 0, [1, 1], 1) && inodes[1].size == BSIZE
    ensures |inodes'| == |inodes| && ByteAt(d', inodes'[1], 0) == 1 && inodes'[1].size == BSIZE
  {
    hide ByteAt, NoHoles;
    assert [1, 1][..1] == [1];
  }

  /** A read of 16 bytes at the end of a root directory whose entries fill one block looks up its second block. */
  lemma ReadsHole(d: Disk, ip: Inode)
    requires ip.size == RootSize(BSIZE) && Addr(d, ip, 1) == 0
    ensures ReadLength(ip.size, BSIZE, 16) == 16 && ReadEnd(BSIZE, 16, 16) == 2 && BSIZE / BSIZE == 1
    ensures !Present(d, ip, 1, 2) && Whole(BSIZE, 16, 16) == 16
    ensures |ip.addrs| == NDIRECT + 1 ==> !Pointed(ip, 1, 2)
  {
    assert |ip.addrs| == NDIRECT + 1 ==> Pointer(ip, 1) == 0;
  }

  lemma OneDiffers(inodes: seq<Inode>, inodes': seq<Inode>, i: nat)
    requires inodes' != inodes && |inodes'| == |inodes| && i < |inodes|
    requires forall k | 0 <= k < |inodes| && k != i :: inodes'[k] == inodes[k]
    ensures inodes'[i] != inodes[i]
  {
  }

  /** Such a root directory, as mkfs leaves it.  A fileread there with no operation under way panics, because a
      block it looks up is not there. */
  method RootWithHole() returns (fs: FileSystem)
    ensures fresh(fs) && fs.Valid() && fs.sb == IMAGE && fs.logged == {} && |fs.inodes| == NINODES
    ensures fs.inodes[1].size == RootSize(BSIZE) && Addr(fs.blocks, fs.inodes[1], 1) == 0
    ensures !Present(fs.blocks, fs.inodes[1], BSIZE / BSIZE,
                     ReadEnd(BSIZE, ReadLength(fs.inodes[1].size, BSIZE, 16), 16))
    ensures exists x: nat :: x < IMAGE.size && !Used(IMAGE, fs.blocks, x)
  {
    hide Ok, Used, Addr, ByteAt, SameBytes, NoHoles;
    fs := OneBlockFile();
    SizeSetOk(IMAGE, fs.blocks, fs.inodes, fs.owner, 1, RootSize(BSIZE));
    AddrOfMap(fs.blocks, fs.inodes[1], 1, RootSize(BSIZE));
    fs.inodes := fs.inodes[1 := fs.inodes[1].(size := RootSize(fs.inodes[1].size))];
    ReadsHole(fs.blocks, fs.inodes[1]);
  }

  /** Reading it allocates a block and hands it to the log; the inode that leads to the block from now on is
      not logged. */
  method HoleRead() returns (fs: FileSystem, r: Option<nat>, ghost owner: Owners, ghost inodes: seq<Inode>)
    ensures fs.Valid() && |fs.inodes| == NINODES && fs.inodes[1].size == RootSize(BSIZE)
    ensures r == Some(16) && Took(fs.blocks, fs.inodes[1], owner, fs.owner, fs.logged, 1)
    ensures |inodes| == NINODES && fs.inodes[1] != inodes[1] && !LoggedInodes(fs.sb, inodes, fs.inodes, fs.logged)
  {
    hide Ok, Used, Addr, ByteAt, SameBytes, NoHoles, Present, Pointed, LoggedAll, ReadLength, ReadEnd, Took,
         LoggedInodes;
    fs := RootWithHole();
    ghost var d := fs.blocks;
    owner, inodes := fs.owner, fs.inodes;
    ReadsHole(fs.blocks, fs.inodes[1]);
    Found(IMAGE, fs.blocks, fs.inodes, fs.owner, 1, 1);
    var dst;
    r, dst := fs.Readi(1, BSIZE, 16, 16);
    OneDiffers(inodes, fs.inodes, 1);
  }
}
