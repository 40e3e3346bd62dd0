/** The block and inode operations of kernel/fs.c and the write loop of kernel/file.c. */
module FileSystems {
  import opened Prelude
  import opened Blocks
  import opened Bitmap
  import opened Inodes

  /** Inodes per block. */
  const IPB := 16

  /** Owners were only added, and only for block `bn` of file `i`. */
  ghost predicate Extends(owner: Owners, owner': Owners, i: nat, bn: nat) {
    && (forall x | x in owner :: x in owner' && owner'[x] == owner[x])
    && (forall x | x in owner' && x !in owner :: owner'[x] == Indirect(i) || owner'[x] == Data(i, bn))
  }

  /** What an operation on blocks `lo` to `hi` of file `i` may take and log: those blocks, the
      indirect block, and the bitmap block of each block it took. */
  ghost predicate Logs(sb: Super, was: set<nat>, now: set<nat>, owner: Owners, owner': Owners, i: nat, lo: nat,
                       hi: nat) {
    && (forall x | x in owner :: x in owner' && owner'[x] == owner[x])
    && (forall x | x in owner' && x !in owner :: OfRange(owner'[x], i, lo, hi))
    && (forall x | x in now ::
          x in was || x in BitmapBlocks(sb, owner'.Keys - owner.Keys) || (x in owner' && OfRange(owner'[x], i, lo, hi)))
  }

  ghost function BitmapBlocks(sb: Super, taken: set<nat>): (r: set<nat>) {
    set y | y in taken :: sb.bmapstart + y / BPB
  }

  predicate OfRange(o: Owner, i: nat, lo: nat, hi: nat) {
    OfFile(o, i) && (o.Data? ==> lo <= o.bn < hi)
  }

  /** Looking up block `bn` of file `i` may give it blocks; every file reads as before. */
  ghost predicate Mapped(sb: Super, d: Disk, inodes: seq<Inode>, owner: Owners, d': Disk, inodes': seq<Inode>,
                         owner': Owners, i: nat, bn: nat) {
    && |inodes'| == |inodes| && Ok(sb, d', inodes', owner') && SameBytes(d, inodes, d', inodes')
    && Extends(owner, owner', i, bn)
    && forall k | 0 <= k < |inodes| :: inodes'[k].size == inodes[k].size && (k != i ==> inodes'[k] == inodes[k])
  }

  /** What bmap finds or makes is a data block. */
  lemma Found(sb: Super, d: Disk, inodes: seq<Inode>, owner: Owners, i: nat, bn: nat)
    requires Ok(sb, d, inodes, owner) && i < |inodes|
    ensures sb.Valid() && |d| == sb.size && |inodes[i].addrs| == NDIRECT + 1 && inodes[i].addrs[NDIRECT] < sb.size
    ensures var c := inodes[i].addrs[NDIRECT]; c != 0 ==> c >= sb.datastart && c in owner && owner[c] == Indirect(i)
    ensures Addr(d, inodes[i], bn) != 0 ==> Addr(d, inodes[i], bn) < sb.size && bn < MAXFILE
    ensures bn < NDIRECT ==> Addr(d, inodes[i], bn) == inodes[i].addrs[bn]
    ensures var c := inodes[i].addrs[NDIRECT];
            NDIRECT <= bn < MAXFILE ==> Addr(d, inodes[i], bn) == if c == 0 then 0 else Word(d[c], bn - NDIRECT)
    ensures Mapped(sb, d, inodes, owner, d, inodes, owner, i, bn)
  {
    assert InodeOk(sb, d, owner, i, inodes[i]);
    var a, c := Addr(d, inodes[i], bn), inodes[i].addrs[NDIRECT];
    if a != 0 {
      assert OwnerOk(sb, d, inodes, a, owner[a]);
    }
    if c != 0 {
      assert OwnerOk(sb, d, inodes, c, owner[c]);
    }
  }

  lemma MapDirect(sb: Super, d: Disk, inodes: seq<Inode>, owner: Owners, i: nat, bn: nat, b: nat)
    requires Ok(sb, d, inodes, owner) && i < |inodes| && bn < NDIRECT && b < sb.size && !Used(sb, d, b)
    requires |inodes[i].addrs| == NDIRECT + 1 && inodes[i].addrs[bn] == 0
    ensures var ip := inodes[i].(addrs := inodes[i].addrs[bn := b]);
            b != 0 && b !in owner && Mapped(sb, d, inodes, owner, Taken(sb, d, b), inodes[i := ip],
                                            owner[b := Data(i, bn)], i, bn)
  {
    FreeBlock(sb, d, inodes, owner, b, Data(i, bn));
    AttachDirect(sb, d, inodes, owner, i, bn, b);
  }

  lemma MapIndirect(sb: Super, d: Disk, inodes: seq<Inode>, owner: Owners, i: nat, bn: nat, b: nat)
    requires Ok(sb, d, inodes, owner) && i < |inodes| && b < sb.size && !Used(sb, d, b)
    requires |inodes[i].addrs| == NDIRECT + 1 && inodes[i].addrs[NDIRECT] == 0
    ensures var ip := inodes[i].(addrs := inodes[i].addrs[NDIRECT := b]);
            b != 0 && b !in owner && Mapped(sb, d, inodes, owner, Taken(sb, d, b), inodes[i := ip],
                                            owner[b := Indirect(i)], i, bn)
  {
    FreeBlock(sb, d, inodes, owner, b, Indirect(i));
    AttachIndirect(sb, d, inodes, owner, i, b);
  }

  lemma MapEntry(sb: Super, d: Disk, inodes: seq<Inode>, owner: Owners, i: nat, j: nat, a: nat, b: nat, blk: Block)
    requires Ok(sb, d, inodes, owner) && i < |inodes| && j < NINDIRECT && b < sb.size && !Used(sb, d, b)
    requires |inodes[i].addrs| == NDIRECT + 1 && inodes[i].addrs[NDIRECT] == a < |d| && a != 0 && Word(d[a], j) == 0
    requires Word(blk, j) == b && forall n: nat | n < NINDIRECT && n != j :: Word(blk, n) == Word(d[a], n)
    ensures var e := Taken(sb, d, b)[a := blk];
            && b != 0 && b != a && b !in owner && Addr(e, inodes[i], NDIRECT + j) == b
            && Mapped(sb, d, inodes, owner, e, inodes, owner[b := Data(i, NDIRECT + j)], i, NDIRECT + j)
  {
    FreeBlock(sb, d, inodes, owner, b, Data(i, NDIRECT + j));
    AttachEntry(sb, d, inodes, owner, i, j, a, b, blk);
    assert InodeOk(sb, d, owner, i, inodes[i]);
  }

  lemma MappedTrans(sb: Super, d0: Disk, i0: seq<Inode>, o0: Owners, d1: Disk, i1: seq<Inode>, o1: Owners, d2: Disk,
                    i2: seq<Inode>, o2: Owners, i: nat, bn: nat)
    requires Mapped(sb, d0, i0, o0, d1, i1, o1, i, bn) && Mapped(sb, d1, i1, o1, d2, i2, o2, i, bn)
    ensures Mapped(sb, d0, i0, o0, d2, i2, o2, i, bn)
  {
    SameBytesTrans(d0, i0, d1, i1, d2, i2);
    assert forall k | 0 <= k < |i0| :: i1[k].size == i0[k].size && (k != i ==> i1[k] == i0[k]);
  }

  lemma SameBytesTrans(d0: Disk, i0: seq<Inode>, d1: Disk, i1: seq<Inode>, d2: Disk, i2: seq<Inode>)
    requires SameBytes(d0, i0, d1, i1) && SameBytes(d1, i1, d2, i2)
    ensures SameBytes(d0, i0, d2, i2)
  {
    forall k, off: nat | 0 <= k < |i0| && off < MAXFILE * BSIZE
      ensures ByteAt(d2, i2[k], off) == ByteAt(d0, i0[k], off)
    {
      assert ByteAt(d1, i1[k], off) == ByteAt(d0, i0[k], off);
    }
  }

  function Min(a: nat, b: nat): (m: nat) {
    if a < b then a else b
  }

  /** Every block below the size is there. */
  ghost predicate NoHoles(d: Disk, ip: Inode) {
    forall bn: nat | bn * BSIZE < ip.size :: Addr(d, ip, bn) != 0
  }

  /** How many of `n` bytes at `off` there are to read. */
  function ReadLength(size: nat, off: nat, n: nat): (len: nat) {
    if off > size || off + n >= 0x1_0000_0000 then 0 else if off + n > size then size - off else n
  }

  /** Blocks `lo` to `hi` of the file are there. */
  ghost predicate Present(d: Disk, ip: Inode, lo: nat, hi: nat) {
    forall bn: nat | lo <= bn < hi :: Addr(d, ip, bn) != 0
  }

  /** Where an inode leads to block `bn`: to the block itself, or to the indirect block. */
  function Pointer(ip: Inode, bn: nat): (a: nat) {
    if |ip.addrs| != NDIRECT + 1 then 0 else if bn < NDIRECT then ip.addrs[bn] else ip.addrs[NDIRECT]
  }

  /** The inode leads to blocks `lo` to `hi` as far as is its own matter. */
  ghost predicate Pointed(ip: Inode, lo: nat, hi: nat) {
    forall bn: nat | lo <= bn < hi :: Pointer(ip, bn) != 0
  }

  /** The blocks looked up to copy `len` bytes at `off` are those from that of `off` up to this one: the last
      one copied, or the one where the copy fails after `room` bytes. */
  function ReadEnd(off: nat, len: nat, room: nat): (hi: nat)
    ensures off / BSIZE <= hi
  {
    if len == 0 then off / BSIZE else (off + Min(len - 1, room)) / BSIZE + 1
  }

  /** Block `bn` is looked up if it holds a byte of the range and all bytes before it can be copied. */
  lemma ReadEndIs(off: nat, len: nat, room: nat, bn: nat)
    requires off / 1024 <= bn
    ensures bn < ReadEnd(off, len, room) <==> 0 < len && bn * 1024 < off + len && bn * 1024 <= off + room
  {
  }

  lemma PresentPart(d: Disk, ip: Inode, lo: nat, mid: nat, hi: nat)
    requires mid <= hi
    ensures Present(d, ip, lo, hi) ==> Present(d, ip, lo, mid)
  {
  }

  lemma LengthBound(size: nat, off: nat, n: nat)
    ensures ReadLength(size, off, n) > 0 ==> off + ReadLength(size, off, n) <= size
  {
  }

  /** A file without holes has the blocks of every read. */
  lemma ReadPresent(d: Disk, ip: Inode, off: nat, n: nat, room: nat)
    requires NoHoles(d, ip)
    ensures Present(d, ip, off / BSIZE, ReadEnd(off, ReadLength(ip.size, off, n), room))
  {
    hide Addr;
    var len := ReadLength(ip.size, off, n);
    forall bn: nat | off / BSIZE <= bn < ReadEnd(off, len, room) ensures Addr(d, ip, bn) != 0 {
      assert bn * BSIZE < ip.size;
    }
  }

  /** The bytes counted when a copy of `n` bytes at `off` can go no further than `reach` bytes: the
      copy that fails, of the part of a block, is not counted. */
  function Whole(off: nat, n: nat, reach: nat): (tot: nat) {
    if reach >= n then n
    else if (off + reach) / BSIZE * BSIZE <= off then 0
    else (off + reach) / BSIZE * BSIZE - off
  }

  /** All if all can be copied; else up to the last start of a block that is reached, if there is one. */
  lemma WholeIs(off: nat, n: nat, reach: nat)
    ensures var tot := Whole(off, n, reach);
            && (n <= reach ==> tot == n)
            && (reach < n ==> && tot <= reach && (tot == 0 || (off + tot) % 1024 == 0)
                              && (off + tot) / 1024 == (off + reach) / 1024)
  {
  }

  /** A read of `n` bytes at `off` of a file of `size` bytes, to where there is room for `room` bytes: `got`
      bytes arrive, as many as were asked for or there is room for or there are in the file, and all are
      counted unless the room was too small; then those before the last start of a block that is reached. */
  ghost predicate Arrived(size: nat, off: nat, n: nat, room: nat, got: nat, counted: nat) {
    if off > size || off + n >= 0x1_0000_0000 then got == 0 && counted == 0
    else
      && got <= n && got <= room && off + got <= size && (got == n || got == room || off + got == size)
      && (got == n || off + got == size ==> counted == got)
      && (got < n && off + got < size ==> && counted <= got && (counted == 0 || (off + counted) % 1024 == 0)
                                          && (off + counted) / 1024 == (off + got) / 1024)
  }

  lemma ArrivedIs(size: nat, off: nat, n: nat, room: nat)
    ensures var len := ReadLength(size, off, n); Arrived(size, off, n, room, Min(len, room), Whole(off, len, room))
  {
    hide Whole;
    WholeIs(off, ReadLength(size, off, n), room);
  }

  /** `dst` holds the file's bytes from `off` on. */
  ghost predicate Copied(d: Disk, ip: Inode, off: nat, dst: seq<Byte>) {
    forall x | 0 <= x < |dst| :: dst[x] == ByteAt(d, ip, off + x)
  }

  /** `m` bytes of a block from byte `q` on. */
  function Slice(bp: Block, q: nat, m: nat): (s: seq<Byte>)
    requires q + m <= BSIZE
    ensures |s| == m
  {
    bp[q..q + m]
  }

  lemma CopyMore(d: Disk, ip: Inode, off: nat, dst: seq<Byte>, bp: Block, m: nat)
    requires Copied(d, ip, off, dst)
    requires var o := off + |dst|; o % BSIZE + m <= BSIZE && Copied(d, ip, o / BSIZE * BSIZE, bp)
    ensures var o := off + |dst|; Copied(d, ip, off, dst + Slice(bp, o % BSIZE, m))
  {
    var o := off + |dst|;
    var more := dst + bp[o % BSIZE..o % BSIZE + m];
    forall x | 0 <= x < |more| ensures more[x] == ByteAt(d, ip, off + x) {
      if x >= |dst| {
        var y := o % BSIZE + (x - |dst|);
        assert more[x] == bp[y] && o / BSIZE * BSIZE + y == off + x;
      }
    }
  }

  /** Between copies, the offset is at a block's start unless nothing was copied or all was. */
  predicate Aligned(off: nat, tot: nat, len: nat) {
    tot == 0 || tot == len || (off + tot) % BSIZE == 0
  }

  /** A range within one block is done in one trip. */
  lemma InOneBlock(off: nat, tot: nat, len: nat)
    requires tot < len && Aligned(off, tot, len)
    ensures off % BSIZE + len <= BSIZE ==> tot == 0
  {
    assert off % BSIZE + tot < BSIZE ==> (off + tot) % BSIZE == off % BSIZE + tot;
  }

  lemma Advance(off: nat, tot: nat, len: nat)
    requires tot < len
    ensures var m := Min(len - tot, BSIZE - (off + tot) % BSIZE);
            && m > 0 && tot + m <= len && Aligned(off, tot + m, len)
            && (tot + m < len ==> (off + tot + m) / BSIZE == (off + tot) / BSIZE + 1)
  {
  }

  lemma WholeAll(off: nat, len: nat, reach: nat)
    requires len <= reach
    ensures Whole(off, len, reach) == len && Min(len, reach) == len
  {
  }

  /** The bytes that one trip round the copy loop moves: to the end of the block or of the copy. */
  function Part(off: nat, tot: nat, len: nat): (m: nat)
    requires tot <= len
  {
    Min(len - tot, BSIZE - (off + tot) % BSIZE)
  }

  /** One trip round the loop of a copy that may fail after `room` bytes. */
  lemma Trip(off: nat, tot: nat, len: nat, room: nat)
    requires tot < len && tot <= room && Aligned(off, tot, len)
    ensures var m, o := Part(off, tot, len), off + tot;
            && 0 < m <= len - tot && o % BSIZE + m <= BSIZE && Aligned(off, tot + m, len)
            && o / BSIZE < ReadEnd(off, len, room) && off / BSIZE <= o / BSIZE
            && (if tot + m < len && m <= room - tot then (o + m) / BSIZE == o / BSIZE + 1
                else ReadEnd(off, len, room) == o / BSIZE + 1)
            && (room - tot < m ==> Whole(off, len, room) == tot && Min(len, room) == room)
  {
    Advance(off, tot, len);
    if room - tot < Part(off, tot, len) {
      WholePart(off, tot, len, room);
    }
  }

  /** A copy that stops inside the block at `off + tot` counts `tot` bytes. */
  lemma WholePart(off: nat, tot: nat, len: nat, reach: nat)
    requires tot <= reach && tot < len && Aligned(off, tot, len)
    requires reach - tot < Min(len - tot, BSIZE - (off + tot) % BSIZE)
    ensures Whole(off, len, reach) == tot && Min(len, reach) == reach
  {
    var o := off + tot;
    assert (off + reach) / BSIZE == o / BSIZE;
  }

  lemma HoleFree(d: Disk, ip: Inode, o: nat)
    ensures NoHoles(d, ip) && o < ip.size ==> Addr(d, ip, o / BSIZE) != 0
  {
    assert o / BSIZE * BSIZE <= o;
  }

  // ---------- whole reads and writes ----------

  /** Since the start, only the bytes `s` were stored, at `off` of file `i`; blocks were only added. */
  ghost predicate Wrote(sb: Super, d0: Disk, inodes0: seq<Inode>, owner0: Owners, d: Disk, inodes: seq<Inode>,
                        owner: Owners, i: nat, off: nat, s: seq<Byte>) {
    && Ok(sb, d0, inodes0, owner0) && Ok(sb, d, inodes, owner) && i < |inodes| == |inodes0|
    && Spliced(d0, inodes0, d, inodes, i, off, s)
    && (s == [] ==> SameBytes(d0, inodes0, d, inodes))
    && (forall x | x in owner0 :: x in owner && owner[x] == owner0[x])
    && forall k | 0 <= k < |inodes0| :: inodes[k].size == inodes0[k].size
  }

  lemma NothingWrote(sb: Super, d: Disk, inodes: seq<Inode>, owner: Owners, i: nat, off: nat)
    requires Ok(sb, d, inodes, owner) && i < |inodes|
    ensures Wrote(sb, d, inodes, owner, d, inodes, owner, i, off, []) && Copied(d, inodes[i], off, [])
  {
    hide Ok;
  }

  lemma AfterBmap(sb: Super, d0: Disk, inodes0: seq<Inode>, owner0: Owners, d1: Disk, inodes1: seq<Inode>,
                  owner1: Owners, d2: Disk, inodes2: seq<Inode>, owner2: Owners, i: nat, off: nat, s: seq<Byte>,
                  bn: nat)
    requires Wrote(sb, d0, inodes0, owner0, d1, inodes1, owner1, i, off, s)
    requires Mapped(sb, d1, inodes1, owner1, d2, inodes2, owner2, i, bn)
    ensures Wrote(sb, d0, inodes0, owner0, d2, inodes2, owner2, i, off, s)
  {
    hide Ok, ByteAt;
    forall k, x: nat | 0 <= k < |inodes0| && x < MAXFILE * BSIZE
      ensures ByteAt(d2, inodes2[k], x)
              == if k == i && off <= x < off + |s| then s[x - off] else ByteAt(d0, inodes0[k], x)
      ensures s == [] ==> ByteAt(d2, inodes2[k], x) == ByteAt(d0, inodes0[k], x)
    {
      assert ByteAt(d2, inodes2[k], x) == ByteAt(d1, inodes1[k], x);
    }
  }

  lemma BlockBytes(sb: Super, d0: Disk, inodes0: seq<Inode>, owner0: Owners, d: Disk, inodes: seq<Inode>,
                   owner: Owners, i: nat, off: nat, bn: nat)
    requires Wrote(sb, d0, inodes0, owner0, d, inodes, owner, i, off, []) && bn < MAXFILE
    requires 0 < Addr(d, inodes[i], bn) < |d|
    ensures Copied(d0, inodes0[i], bn * BSIZE, d[Addr(d, inodes[i], bn)])
  {
    hide Ok;
    var a := Addr(d, inodes[i], bn);
    forall y | 0 <= y < BSIZE ensures d[a][y] == ByteAt(d0, inodes0[i], bn * BSIZE + y) {
      var x := bn * BSIZE + y;
      assert x / BSIZE == bn && x % BSIZE == y;
      assert ByteAt(d, inodes[i], x) == ByteAt(d0, inodes0[i], x);
    }
  }

  /** The blocks under bytes `off` to `o` of the file are there. */
  ghost predicate Reaches(d: Disk, ip: Inode, off: nat, o: nat) {
    off < o ==> forall bn: nat | off / BSIZE <= bn && bn * BSIZE < o :: Addr(d, ip, bn) != 0
  }

  lemma ReachMore(sb: Super, d: Disk, inodes: seq<Inode>, owner: Owners, d': Disk, inodes': seq<Inode>, owner': Owners,
                  i: nat, off: nat, o: nat, m: nat)
    requires Ok(sb, d, inodes, owner) && Mapped(sb, d, inodes, owner, d', inodes', owner', i, o / BSIZE) && i < |inodes|
    requires Reaches(d, inodes[i], off, o) && Addr(d', inodes'[i], o / BSIZE) != 0 && o % BSIZE + m <= BSIZE
    requires o + m <= MAXFILE * BSIZE
    ensures Reaches(d', inodes'[i], off, o + m)
  {
    forall bn: nat | off / BSIZE <= bn && bn * BSIZE < o + m ensures Addr(d', inodes'[i], bn) != 0 {
      if bn != o / BSIZE {
        assert bn * BSIZE < o;
        AddrsStay(sb, d, inodes, owner, d', inodes', owner', i, bn);
      }
    }
  }

  lemma LogMore(sb: Super, was: set<nat>, now: set<nat>, owner0: Owners, owner: Owners, now': set<nat>, owner': Owners,
                i: nat, bn: nat, lo: nat, hi: nat, a: nat)
    requires Logs(sb, was, now, owner0, owner, i, lo, hi) && Logs(sb, now, now', owner, owner', i, bn, bn + 1)
    requires lo <= bn < hi && a in owner' && owner'[a] == Data(i, bn)
    ensures Logs(sb, was, now', owner0, owner', i, lo, hi) && Logs(sb, was, now' + {a}, owner0, owner', i, lo, hi)
  {
    var old0, new0, all := owner.Keys - owner0.Keys, owner'.Keys - owner.Keys, owner'.Keys - owner0.Keys;
    assert old0 <= all && new0 <= all;
    assert BitmapBlocks(sb, old0) <= BitmapBlocks(sb, all) && BitmapBlocks(sb, new0) <= BitmapBlocks(sb, all);
  }

  lemma LogTaken(sb: Super, was: set<nat>, owner: Owners, b: nat, o: Owner, i: nat, lo: nat, hi: nat)
    requires b !in owner && OfRange(o, i, lo, hi)
    ensures Logs(sb, was, was + {sb.bmapstart + b / BPB, b}, owner, owner[b := o], i, lo, hi)
    ensures forall x | x in owner && OfRange(owner[x], i, lo, hi) ::
              Logs(sb, was, was + {sb.bmapstart + b / BPB, b} + {x}, owner, owner[b := o], i, lo, hi)
  {
    assert owner[b := o].Keys - owner.Keys == {b};
    assert sb.bmapstart + b / BPB in BitmapBlocks(sb, {b});
  }

  lemma LogNone(sb: Super, was: set<nat>, owner: Owners, i: nat, lo: nat, hi: nat)
    ensures Logs(sb, was, was, owner, owner, i, lo, hi)
  {
  }

  /** An entry written to indirect block `c` after its block `b` was taken. */
  lemma LogEntry(sb: Super, was: set<nat>, now: set<nat>, owner0: Owners, owner: Owners, b: nat, i: nat, bn: nat,
                 c: nat)
    requires Logs(sb, was, now, owner0, owner, i, bn, bn + 1) && b !in owner && c in owner && owner[c] == Indirect(i)
    ensures Logs(sb, was, now + {sb.bmapstart + b / BPB, b} + {c}, owner0, owner[b := Data(i, bn)], i, bn, bn + 1)
  {
    LogTaken(sb, now, owner, b, Data(i, bn), i, bn, bn + 1);
    LogMore(sb, was, now, owner0, owner, now + {sb.bmapstart + b / BPB, b} + {c}, owner[b := Data(i, bn)], i, bn, bn,
            bn + 1, b);
  }

  /** One more stretch of bytes stored into the block that holds offset `off + |s|`. */
  lemma AfterStore(sb: Super, d0: Disk, inodes0: seq<Inode>, owner0: Owners, d: Disk, inodes: seq<Inode>,
                   owner: Owners, i: nat, off: nat, s: seq<Byte>, t: seq<Byte>, a: nat)
    requires Wrote(sb, d0, inodes0, owner0, d, inodes, owner, i, off, s)
    requires var o := off + |s|;
      && 0 < a < |d| && a == Addr(d, inodes[i], o / BSIZE) && o / BSIZE < MAXFILE && o % BSIZE + |t| <= BSIZE
    ensures var o := off + |s|;
            Wrote(sb, d0, inodes0, owner0, d[a := Patch(d[a], o % BSIZE, t)], inodes, owner, i, off, s + t)
  {
    hide Ok, OwnerOk, BitsOk, ByteAt, Addr;
    MetaBelow(sb, d, inodes, owner);
    var o := off + |s|;
    var e := d[a := Patch(d[a], o % BSIZE, t)];
    StoreBlock(sb, d, inodes, owner, i, o / BSIZE, a, o % BSIZE, t, Patch(d[a], o % BSIZE, t));
    forall k, x: nat | 0 <= k < |inodes0| && x < MAXFILE * BSIZE
      ensures ByteAt(e, inodes[k], x)
              == if k == i && off <= x < off + |s + t| then (s + t)[x - off] else ByteAt(d0, inodes0[k], x)
      ensures s + t == [] ==> ByteAt(e, inodes[k], x) == ByteAt(d0, inodes0[k], x)
    {
      assert ByteAt(d, inodes[k], x) == if k == i && off <= x < off + |s| then s[x - off]
                                        else ByteAt(d0, inodes0[k], x);
    }
  }

  lemma StoreReaches(sb: Super, d: Disk, inodes: seq<Inode>, owner: Owners, i: nat, off: nat, o: nat, a: nat, bn: nat,
                     blk: Block, p: nat)
    requires Ok(sb, d, inodes, owner) && i < |inodes| && Reaches(d, inodes[i], off, o) && p <= o
    requires 0 < a < |d| && a == Addr(d, inodes[i], bn) && bn < MAXFILE
    ensures Reaches(d[a := blk], inodes[i], off, p) && a in owner && owner[a] == Data(i, bn)
  {
    assert InodeOk(sb, d, owner, i, inodes[i]);
    StoreInode(sb, d, owner, i, bn, a, blk, i, inodes[i]);
    forall n: nat | off < p && off / BSIZE <= n && n * BSIZE < p ensures Addr(d[a := blk], inodes[i], n) != 0 {
      assert Addr(d, inodes[i], n) != 0;
    }
  }

  lemma Reached(sb: Super, d: Disk, inodes: seq<Inode>, owner: Owners, d': Disk, inodes': seq<Inode>, owner': Owners,
                i: nat, off: nat, o: nat, m: nat, a: nat, blk: Block, p: nat)
    requires Ok(sb, d, inodes, owner) && Mapped(sb, d, inodes, owner, d', inodes', owner', i, o / BSIZE) && i < |inodes|
    requires Reaches(d, inodes[i], off, o) && 0 < a < |d'| && a == Addr(d', inodes'[i], o / BSIZE)
             && o % BSIZE + m <= BSIZE
    requires o / BSIZE < MAXFILE && p <= o + m <= MAXFILE * BSIZE
    ensures Reaches(d'[a := blk], inodes'[i], off, p) && a in owner' && owner'[a] == Data(i, o / BSIZE)
  {
    hide Ok, SameBytes, Addr, Reaches;
    ReachMore(sb, d, inodes, owner, d', inodes', owner', i, off, o, m);
    StoreReaches(sb, d', inodes', owner', i, off, o + m, a, o / BSIZE, blk, p);
  }

  function Max(a: nat, b: nat): (m: nat) {
    if a < b then b else a
  }

  /** The size is set last: it is no part of the block map, and no hole appears below it. */
  lemma SizeSet(sb: Super, d0: Disk, inodes0: seq<Inode>, owner0: Owners, d: Disk, inodes: seq<Inode>, owner: Owners,
                i: nat, off: nat, s: seq<Byte>, o: nat)
    requires Wrote(sb, d0, inodes0, owner0, d, inodes, owner, i, off, s) && off <= inodes0[i].size
    requires Reaches(d, inodes[i], off, o) && o <= MAXFILE * BSIZE
    ensures var inodes' := inodes[i := inodes[i].(size := Max(inodes[i].size, o))];
            && Ok(sb, d, inodes', owner) && Spliced(d0, inodes0, d, inodes', i, off, s)
            && forall k | 0 <= k < |inodes0| && NoHoles(d0, inodes0[k]) :: NoHoles(d, inodes'[k])
  {
    hide Ok;
    var inodes' := inodes[i := inodes[i].(size := Max(inodes[i].size, o))];
    MetaBelow(sb, d0, inodes0, owner0);
    MetaBelow(sb, d, inodes, owner);
    forall k, n: nat | 0 <= k < |inodes| ensures Addr(d, inodes'[k], n) == Addr(d, inodes[k], n) {}
    SizeSetOk(sb, d, inodes, owner, i, Max(inodes[i].size, o));
    forall k, x: nat | 0 <= k < |inodes| && x < MAXFILE * BSIZE
      ensures ByteAt(d, inodes'[k], x) == ByteAt(d, inodes[k], x)
    {
      assert Addr(d, inodes'[k], x / BSIZE) == Addr(d, inodes[k], x / BSIZE);
    }
    forall k | 0 <= k < |inodes0| && NoHoles(d0, inodes0[k]) ensures NoHoles(d, inodes'[k]) {
      forall bn: nat | bn * BSIZE < inodes'[k].size ensures Addr(d, inodes'[k], bn) != 0 {
        if bn * BSIZE < inodes0[k].size {
          AddrsStay(sb, d0, inodes0, owner0, d, inodes, owner, k, bn);
        }
      }
    }
  }

  lemma SizeSetOk(sb: Super, d: Disk, inodes: seq<Inode>, owner: Owners, i: nat, size: nat)
    requires Ok(sb, d, inodes, owner) && i < |inodes| && size <= MAXFILE * BSIZE
    ensures Ok(sb, d, inodes[i := inodes[i].(size := size)], owner)
  {
    var inodes' := inodes[i := inodes[i].(size := size)];
    forall k | 0 <= k < |inodes'| ensures InodeOk(sb, d, owner, k, inodes'[k]) {
      assert InodeOk(sb, d, owner, k, inodes[k]);
      assert forall n: nat :: Addr(d, inodes'[k], n) == Addr(d, inodes[k], n);
    }
    forall x | x in owner ensures OwnerOk(sb, d, inodes', x, owner[x]) {
      assert OwnerOk(sb, d, inodes, x, owner[x]);
    }
  }

  /** A write of `src` at `off` of file `i`, of which `readable` bytes can be read: those bytes are
      stored, the size covers the copies that succeeded, and no file gets a hole. */
  ghost predicate Written(d: Disk, inodes: seq<Inode>, d': Disk, inodes': seq<Inode>, i: nat, off: nat, src: seq<Byte>,
                          readable: nat) {
    && i < |inodes| == |inodes'|
    && Spliced(d, inodes, d', inodes', i, off, src[..Min(|src|, readable)])
    && inodes'[i].size == Max(inodes[i].size, off + Whole(off, |src|, readable))
    && (forall k | 0 <= k < |inodes| && k != i :: inodes'[k].size == inodes[k].size)
    && (forall k | 0 <= k < |inodes| && NoHoles(d, inodes[k]) :: NoHoles(d', inodes'[k]))
  }

  ghost predicate WriteLogs(sb: Super, was: set<nat>, now: set<nat>, owner: Owners, owner': Owners, i: nat, off: nat,
                            n: nat) {
    Logs(sb, was + {sb.inodestart + i / IPB}, now, owner, owner', i, off / BSIZE, (off + n + BSIZE - 1) / BSIZE)
  }

  /** The three guards of writei, with 32-bit wrap-around of `off + n`. */
  predicate WriteRefused(size: nat, off: nat, n: nat) {
    off > size || off + n >= 0x1_0000_0000 || off + n > MAXFILE * BSIZE
  }

  lemma WriteStart(sb: Super, d: Disk, inodes: seq<Inode>, owner: Owners, logged: set<nat>, i: nat, off: nat, hi: nat)
    requires Ok(sb, d, inodes, owner) && i < |inodes|
    ensures Wrote(sb, d, inodes, owner, d, inodes, owner, i, off, [])
    ensures Reaches(d, inodes[i], off, off) && Logs(sb, logged, logged, owner, owner, i, off / BSIZE, hi)
  {
    NothingWrote(sb, d, inodes, owner, i, off);
  }

  /** A write logs its inode, if it had anything to write. */
  lemma LogInode(sb: Super, was: set<nat>, now: set<nat>, owner: Owners, owner': Owners, i: nat, off: nat, n: nat)
    requires Logs(sb, was, now, owner, owner', i, off / BSIZE, (off + n + BSIZE - 1) / BSIZE)
    ensures WriteLogs(sb, was, now, owner, owner', i, off, n)
    ensures WriteLogs(sb, was, now + {sb.inodestart + i / IPB}, owner, owner', i, off, n)
  {
  }

  lemma WriteEnd(sb: Super, d0: Disk, inodes0: seq<Inode>, owner0: Owners, d: Disk, inodes: seq<Inode>, owner: Owners,
                 i: nat, off: nat, src: seq<Byte>, readable: nat, s: seq<Byte>, o: nat)
    requires Wrote(sb, d0, inodes0, owner0, d, inodes, owner, i, off, s) && off <= inodes0[i].size
    requires Reaches(d, inodes[i], off, o) && o <= MAXFILE * BSIZE
    requires s == src[..Min(|src|, readable)] && o == off + Whole(off, |src|, readable)
    ensures var inodes' := inodes[i := inodes[i].(size := Max(inodes[i].size, o))];
            Ok(sb, d, inodes', owner) && Written(d0, inodes0, d, inodes', i, off, src, readable)
  {
    hide Ok, SameBytes, Spliced, NoHoles, Reaches, Whole;
    SizeSet(sb, d0, inodes0, owner0, d, inodes, owner, i, off, s, o);
  }

  // ---------- what a write leaves to the log ----------

  /** Every block that differs was handed to log_write. */
  ghost predicate LoggedAll(d: Disk, d': Disk, was: set<nat>, now: set<nat>) {
    |d'| == |d| && was <= now && forall x: nat | x < |d| && d'[x] != d[x] :: x in now
  }

  lemma LoggedSame(d: Disk, was: set<nat>)
    ensures LoggedAll(d, d, was, was)
  {
  }

  lemma LoggedTrans(d0: Disk, d1: Disk, d2: Disk, l0: set<nat>, l1: set<nat>, l2: set<nat>)
    requires LoggedAll(d0, d1, l0, l1) && LoggedAll(d1, d2, l1, l2)
    ensures LoggedAll(d0, d2, l0, l2)
  {
  }

  lemma LoggedGrows(d: Disk, d': Disk, was: set<nat>, now: set<nat>)
    requires LoggedAll(d, d', was, now)
    ensures was <= now
  {
  }

  lemma LoggedOne(d: Disk, d': Disk, was: set<nat>, now: set<nat>, x: nat)
    requires LoggedAll(d, d', was, now)
    ensures LoggedAll(d, d', was, now + {x})
  {
  }

  lemma LoggedStore(d0: Disk, d: Disk, was: set<nat>, now: set<nat>, a: nat, blk: Block)
    requires LoggedAll(d0, d, was, now) && a < |d|
    ensures LoggedAll(d0, d[a := blk], was, now + {a})
  {
  }

  lemma TakenZero(sb: Super, d: Disk, b: nat)
    requires sb.Valid() && |d| == sb.size && b < sb.size
    ensures Taken(sb, d, b)[b] == ZeroBlock()
  {
    hide Mark;
  }

  lemma LoggedTaken(sb: Super, d: Disk, was: set<nat>, b: nat)
    requires sb.Valid() && |d| == sb.size && b < sb.size
    ensures LoggedAll(d, Taken(sb, d, b), was, was + {sb.bmapstart + b / BPB, b})
  {
    hide Used;
  }

  lemma LoggedMark(sb: Super, d0: Disk, d: Disk, was: set<nat>, now: set<nat>, b: nat, on: bool)
    requires sb.Valid() && |d| == sb.size && b < sb.size && LoggedAll(d0, d, was, now)
    ensures LoggedAll(d0, Mark(sb, d, b, on), was, now + {sb.bmapstart + b / BPB})
  {
    hide Used;
  }

  /** Every inode that differs has its block logged. */
  ghost predicate LoggedInodes(sb: Super, inodes: seq<Inode>, inodes': seq<Inode>, now: set<nat>) {
    |inodes'| == |inodes| && forall k | 0 <= k < |inodes| && inodes'[k] != inodes[k] :: sb.inodestart + k / IPB in now
  }

  /** Blocks of file `i` from block `bn` on that were there before are not logged yet. */
  ghost predicate Untouched(owner: Owners, was: set<nat>, now: set<nat>, i: nat, bn: nat) {
    forall x | x in now && x in owner && owner[x].Data? && owner[x].inum == i && owner[x].bn >= bn :: x in was
  }

  /** bmap logs no data block that was there before. */
  lemma UntouchedBmap(sb: Super, owner0: Owners, was: set<nat>, d: Disk, inodes: seq<Inode>, owner: Owners,
                      now: set<nat>, d': Disk, inodes': seq<Inode>, owner': Owners, now': set<nat>, i: nat, bn: nat)
    requires Ok(sb, d, inodes, owner) && Ok(sb, d', inodes', owner') && i < |inodes|
    requires forall x | x in owner0 :: x in owner && owner[x] == owner0[x]
    requires Untouched(owner0, was, now, i, bn) && Logs(sb, now, now', owner, owner', i, bn, bn + 1)
    requires Addr(d, inodes[i], bn) != 0 ==> now' == now
    ensures Untouched(owner0, was, now', i, bn)
  {
    hide Used, Addr;
    forall x | x in now' && x in owner0 && owner0[x].Data? && owner0[x].inum == i && owner0[x].bn >= bn
      ensures x in was
    {
      assert OwnerOk(sb, d, inodes, x, owner[x]);
      BitmapBelow(sb, d', inodes', owner', owner'.Keys - owner.Keys, x);
    }
  }

  lemma BitmapBelow(sb: Super, d: Disk, inodes: seq<Inode>, owner: Owners, taken: set<nat>, x: nat)
    requires Ok(sb, d, inodes, owner) && taken <= owner.Keys && x >= sb.datastart
    ensures x !in BitmapBlocks(sb, taken)
  {
    forall y | y in taken ensures sb.bmapstart + y / BPB < sb.datastart {
      assert OwnerOk(sb, d, inodes, y, owner[y]);
    }
  }

  /** The copy of part of a block that fails leaves the bytes it moved behind, in a block that the operation
      has not logged: it was there before and is not among `was`. */
  ghost predicate Torn(d: Disk, ip: Inode, was: set<nat>, off: nat, src: seq<Byte>, readable: nat) {
    var w := Whole(off, |src|, readable);
    var a := Addr(d, ip, (off + w) / BSIZE);
    && readable < |src| && a != 0 && a !in was
    && exists j :: w <= j < readable && src[j] != ByteAt(d, ip, off + j)
  }

  lemma NotTorn(d: Disk, ip: Inode, off: nat, src: seq<Byte>, readable: nat)
    requires |src| <= readable
    ensures !Torn(d, ip, {}, off, src, readable)
  {
  }

  lemma CountedIff(off: nat, n: nat, reach: nat)
    ensures Whole(off, n, reach) == n <==> n <= reach
    ensures Whole(off, n, reach) <= Min(n, reach)
  {
  }

  lemma PatchSame(blk: Block, o: nat, t: seq<Byte>)
    requires o + |t| <= BSIZE
    ensures Patch(blk, o, t) == blk <==> forall j | 0 <= j < |t| :: t[j] == blk[o + j]
  {
    var r := Patch(blk, o, t);
    if forall j | 0 <= j < |t| :: t[j] == blk[o + j] {
      forall x | 0 <= x < BSIZE ensures r[x] == blk[x] {
        assert o <= x < o + |t| ==> t[x - o] == blk[o + (x - o)];
      }
      assert r == blk;
    } else {
      var j :| 0 <= j < |t| && t[j] != blk[o + j];
      assert r[o + j] == t[j];
    }
  }

  /** Bytes of one block of the file. */
  lemma BytesOfBlock(d: Disk, ip: Inode, off: nat, w: nat, src: seq<Byte>, readable: nat)
    requires w <= readable <= |src| && (off + w) % BSIZE + (readable - w) <= BSIZE
    requires var a := Addr(d, ip, (off + w) / BSIZE); 0 < a < |d|
    ensures var a, t := Addr(d, ip, (off + w) / BSIZE), src[w..readable];
            (forall j | 0 <= j < |t| :: t[j] == d[a][(off + w) % BSIZE + j])
            <==> !exists j :: w <= j < readable && src[j] != ByteAt(d, ip, off + j)
  {
    hide Addr;
    var a, t := Addr(d, ip, (off + w) / BSIZE), src[w..readable];
    forall j | w <= j < readable
      ensures ByteAt(d, ip, off + j) == d[a][(off + w) % BSIZE + (j - w)] && t[j - w] == src[j]
    {
      assert (off + j) / BSIZE == (off + w) / BSIZE && (off + j) % BSIZE == (off + w) % BSIZE + (j - w);
    }
    if j :| w <= j < readable && src[j] != ByteAt(d, ip, off + j) {
      assert t[j - w] != d[a][(off + w) % BSIZE + (j - w)];
    } else {
      forall j | 0 <= j < |t| ensures t[j] == d[a][(off + w) % BSIZE + j] {
        assert src[w + j] == ByteAt(d, ip, off + (w + j));
      }
    }
  }

  /** Where block `bn` of the file was there, it still is, and its contents too unless it was logged. */
  lemma OldBlock(sb: Super, d0: Disk, inodes0: seq<Inode>, owner0: Owners, d: Disk, inodes: seq<Inode>, owner: Owners,
                 was: set<nat>, now: set<nat>, i: nat, bn: nat)
    requires Ok(sb, d0, inodes0, owner0) && Ok(sb, d, inodes, owner) && i < |inodes| == |inodes0| && bn < MAXFILE
    requires forall x | x in owner0 :: x in owner && owner[x] == owner0[x]
    requires LoggedAll(d0, d, was, now) && Untouched(owner0, was, now, i, bn)
    ensures var a := Addr(d0, inodes0[i], bn);
            a != 0 ==> && a == Addr(d, inodes[i], bn) && sb.datastart <= a < |d0| && (a in now <==> a in was)
                       && (a !in was ==> d[a] == d0[a])
  {
    hide Used, Addr;
    AddrsStay(sb, d0, inodes0, owner0, d, inodes, owner, i, bn);
    var a := Addr(d0, inodes0[i], bn);
    if a != 0 {
      assert InodeOk(sb, d0, owner0, i, inodes0[i]) && OwnerOk(sb, d0, inodes0, a, owner0[a]);
    }
  }

  /** Blocks taken since the start are logged. */
  ghost predicate NewLogged(owner0: Owners, owner: Owners, now: set<nat>) {
    forall x | x in owner && x !in owner0 :: x in now
  }

  lemma NewlyTaken(owner0: Owners, owner: Owners, now: set<nat>)
    requires forall x | x in owner && x !in owner0 :: x in now
    ensures NewLogged(owner0, owner, now)
  {
  }

  lemma NewLoggedMore(owner0: Owners, owner: Owners, now: set<nat>, owner': Owners, now': set<nat>)
    requires NewLogged(owner0, owner, now) && NewLogged(owner, owner', now') && now <= now'
    ensures NewLogged(owner0, owner', now')
  {
  }

  lemma FreshLogged(sb: Super, d0: Disk, inodes0: seq<Inode>, owner0: Owners, owner: Owners, now: set<nat>, i: nat,
                    bn: nat, a: nat)
    requires Ok(sb, d0, inodes0, owner0) && i < |inodes0| && NewLogged(owner0, owner, now)
    requires forall x | x in owner0 :: x in owner && owner[x] == owner0[x]
    requires a in owner && owner[a] == Data(i, bn) && a != 0
    ensures Addr(d0, inodes0[i], bn) == 0 ==> a in now
  {
    hide Used, Addr;
    if a in owner0 {
      assert OwnerOk(sb, d0, inodes0, a, owner0[a]);
    }
  }

  /** Between two blocks of a write: what was changed is logged, what comes next is not. */
  ghost predicate Writing(d0: Disk, inodes0: seq<Inode>, owner0: Owners, d: Disk, inodes: seq<Inode>, owner: Owners,
                          was: set<nat>, now: set<nat>, i: nat, o: nat, more: bool) {
    && LoggedAll(d0, d, was, now) && NewLogged(owner0, owner, now)
    && (more ==> Untouched(owner0, was, now, i, o / BSIZE))
    && |inodes| == |inodes0| && forall k | 0 <= k < |inodes| && k != i :: inodes[k] == inodes0[k]
  }

  lemma WritingStart(d: Disk, inodes: seq<Inode>, owner: Owners, was: set<nat>, i: nat, o: nat, more: bool)
    ensures Writing(d, inodes, owner, d, inodes, owner, was, was, i, o, more)
  {
  }

  lemma WritingBmap(sb: Super, d0: Disk, inodes0: seq<Inode>, owner0: Owners, d: Disk, inodes: seq<Inode>,
                    owner: Owners, was: set<nat>, now: set<nat>, d': Disk, inodes': seq<Inode>, owner': Owners,
                    now': set<nat>, i: nat, o: nat)
    requires Writing(d0, inodes0, owner0, d, inodes, owner, was, now, i, o, true) && i < |inodes|
    requires Ok(sb, d, inodes, owner) && Mapped(sb, d, inodes, owner, d', inodes', owner', i, o / BSIZE)
    requires forall x | x in owner0 :: x in owner && owner[x] == owner0[x]
    requires LoggedAll(d, d', now, now') && NewLogged(owner, owner', now')
    requires Logs(sb, now, now', owner, owner', i, o / BSIZE, o / BSIZE + 1)
             && (Addr(d, inodes[i], o / BSIZE) != 0 ==> now' == now)
    ensures Writing(d0, inodes0, owner0, d', inodes', owner', was, now', i, o, true)
  {
    hide Ok, Used, Addr, SameBytes, Logs, LoggedAll, NewLogged, Untouched;
    UntouchedBmap(sb, owner0, was, d, inodes, owner, now, d', inodes', owner', now', i, o / BSIZE);
    LoggedTrans(d0, d, d', was, now, now');
    LoggedGrows(d, d', now, now');
    NewLoggedMore(owner0, owner, now, owner', now');
  }

  lemma WritingStore(d0: Disk, inodes0: seq<Inode>, owner0: Owners, d: Disk, inodes: seq<Inode>, owner: Owners,
                     was: set<nat>, now: set<nat>, i: nat, o: nat, o': nat, more: bool, a: nat, blk: Block)
    requires Writing(d0, inodes0, owner0, d, inodes, owner, was, now, i, o, true) && a < |d| && a in owner
             && owner[a] == Data(i, o / BSIZE)
    requires more ==> o / BSIZE < o' / BSIZE
    requires forall x | x in owner0 :: x in owner && owner[x] == owner0[x]
    ensures Writing(d0, inodes0, owner0, d[a := blk], inodes, owner, was, now + {a}, i, o', more)
  {
  }

  /** At the end of a write whose every byte was copied. */
  lemma WritingEnd(d0: Disk, inodes0: seq<Inode>, owner0: Owners, d: Disk, inodes: seq<Inode>, owner: Owners,
                   was: set<nat>, now: set<nat>, i: nat, o: nat, more: bool, x: nat, off: nat, src: seq<Byte>,
                   readable: nat)
    requires Writing(d0, inodes0, owner0, d, inodes, owner, was, now, i, o, more) && |src| <= readable && i < |inodes0|
    ensures LoggedAll(d0, d, was, now + {x}) && LoggedAll(d0, d, was, now)
            && !Torn(d0, inodes0[i], was, off, src, readable)
  {
  }

  lemma WritingTorn(sb: Super, d0: Disk, inodes0: seq<Inode>, owner0: Owners, d: Disk, inodes: seq<Inode>,
                    owner: Owners, was: set<nat>, now: set<nat>, i: nat, off: nat, src: seq<Byte>, readable: nat,
                    w: nat, o: nat, a: nat, x: nat, d': Disk)
    requires readable < |src| && w <= readable && o == off + w && o % BSIZE + (readable - w) <= BSIZE
             && o / BSIZE < MAXFILE
    requires w == Whole(off, |src|, readable) && 0 < a < |d|
    requires d' == d[a := Patch(d[a], o % BSIZE, src[w..readable])] && i < |inodes| == |inodes0|
             && a == Addr(d, inodes[i], o / BSIZE)
    requires Writing(d0, inodes0, owner0, d, inodes, owner, was, now, i, o, true)
    requires a in owner && owner[a] == Data(i, o / BSIZE)
             && forall x | x in owner0 :: x in owner && owner[x] == owner0[x]
    requires Ok(sb, d0, inodes0, owner0) && Ok(sb, d, inodes, owner) && x < sb.datastart
    ensures LoggedAll(d0, d', was, now + {x}) <==> !Torn(d0, inodes0[i], was, off, src, readable)
  {
    hide Ok, Used, Addr, Whole, LoggedAll, NewLogged, Untouched, Torn, Patch;
    FreshLogged(sb, d0, inodes0, owner0, owner, now, i, o / BSIZE, a);
    PartCopy(sb, d0, inodes0, owner0, d, inodes, owner, was, now, i, off, src, readable, w, o / BSIZE, o % BSIZE, a, x,
             d');
  }

  lemma WritingInodes(d0: Disk, inodes0: seq<Inode>, owner0: Owners, d: Disk, inodes: seq<Inode>, owner: Owners,
                      was: set<nat>, now: set<nat>, i: nat, o: nat, more: bool)
    requires Writing(d0, inodes0, owner0, d, inodes, owner, was, now, i, o, more)
    ensures |inodes| == |inodes0| && forall k | 0 <= k < |inodes| && k != i :: inodes[k] == inodes0[k]
  {
  }

  lemma NoInodeChanged(sb: Super, inodes: seq<Inode>, now: set<nat>)
    ensures LoggedInodes(sb, inodes, inodes, now)
  {
  }

  lemma InodeBelow(sb: Super, n: nat, i: nat)
    requires InodesFit(sb, n) && i < n && sb.Valid()
    ensures sb.inodestart + i / IPB < sb.datastart
  {
  }

  /** The size is part of the inode, which is logged in any case. */
  lemma InodeLogged(sb: Super, inodes: seq<Inode>, inodes': seq<Inode>, i: nat, now: set<nat>)
    requires |inodes'| == |inodes| && (forall k | 0 <= k < |inodes| && k != i :: inodes'[k] == inodes[k])
             && sb.inodestart + i / IPB in now
    ensures LoggedInodes(sb, inodes, inodes', now)
  {
  }

  /** The failing copy: every changed block is logged exactly if the block is not torn. */
  lemma PartCopy(sb: Super, d0: Disk, inodes0: seq<Inode>, owner0: Owners, d: Disk, inodes: seq<Inode>, owner: Owners,
                 was: set<nat>, now: set<nat>, i: nat, off: nat, src: seq<Byte>, readable: nat, w: nat, bn: nat, o: nat,
                 a: nat, x: nat, d': Disk)
    requires readable < |src| && w <= readable && o + (readable - w) <= BSIZE && bn < MAXFILE && 0 < a < |d|
    requires w == Whole(off, |src|, readable) && bn == (off + w) / BSIZE && o == (off + w) % BSIZE
    requires d' == d[a := Patch(d[a], o, src[w..readable])] && i < |inodes| == |inodes0| && a == Addr(d, inodes[i], bn)
    requires LoggedAll(d0, d, was, now) && Untouched(owner0, was, now, i, bn)
    requires Addr(d0, inodes0[i], bn) == 0 ==> a in now
    requires forall x | x in owner0 :: x in owner && owner[x] == owner0[x]
    requires Ok(sb, d0, inodes0, owner0) && Ok(sb, d, inodes, owner) && x < sb.datastart
    ensures LoggedAll(d0, d', was, now + {x}) <==> !Torn(d0, inodes0[i], was, off, src, readable)
  {
    hide Ok, Used, Addr, Whole, ByteAt, Patch, Untouched;
    OldBlock(sb, d0, inodes0, owner0, d, inodes, owner, was, now, i, bn);
    var a0 := Addr(d0, inodes0[i], bn);
    if a0 == 0 || a in was {
      LoggedStore(d0, d, was, now, a, d'[a]);
      assert now + {a} == now;
    } else {
      BytesOfBlock(d0, inodes0[i], off, w, src, readable);
      PatchSame(d[a], o, src[w..readable]);
      if d'[a] == d[a] {
        assert d' == d;
      } else {
        assert d'[a] != d0[a] && a !in now + {x};
      }
    }
  }

  /** A block that is there stays there. */
  lemma StillThere(sb: Super, d: Disk, inodes: seq<Inode>, owner: Owners, d': Disk, inodes': seq<Inode>, owner': Owners,
                   i: nat, bn: nat, n: nat)
    requires Ok(sb, d, inodes, owner) && Mapped(sb, d, inodes, owner, d', inodes', owner', i, bn) && i < |inodes|
    ensures Addr(d, inodes[i], n) != 0 ==> Addr(d', inodes'[i], n) != 0
  {
    hide Ok, Addr, SameBytes;
    AddrsStay(sb, d, inodes, owner, d', inodes', owner', i, n);
  }

  /** A block that was not there and is now was taken and logged. */
  lemma NowThere(sb: Super, d0: Disk, inodes0: seq<Inode>, owner0: Owners, d: Disk, inodes: seq<Inode>, owner: Owners,
                 now: set<nat>, i: nat, off: nat, n: nat)
    requires Wrote(sb, d0, inodes0, owner0, d, inodes, owner, i, off, []) && NewLogged(owner0, owner, now)
    ensures Addr(d0, inodes0[i], n) == 0 && Addr(d, inodes[i], n) != 0
            ==> var a := Addr(d, inodes[i], n); a !in owner0 && a in owner && a in now
  {
    hide Used, Addr, SameBytes, Spliced;
    var a := Addr(d, inodes[i], n);
    if Addr(d0, inodes0[i], n) == 0 && a != 0 {
      Found(sb, d, inodes, owner, i, n);
      assert InodeOk(sb, d, owner, i, inodes[i]) && owner[a] == Data(i, n);
      assert a in owner0 ==> OwnerOk(sb, d0, inodes0, a, owner0[a]);
    }
  }

  /** A read stores nothing. */
  lemma WroteNothing(sb: Super, d0: Disk, inodes0: seq<Inode>, owner0: Owners, d: Disk, inodes: seq<Inode>,
                     owner: Owners, i: nat, off: nat)
    requires Wrote(sb, d0, inodes0, owner0, d, inodes, owner, i, off, [])
    ensures Ok(sb, d, inodes, owner) && SameBytes(d0, inodes0, d, inodes) && i < |inodes| == |inodes0|
    ensures forall k | 0 <= k < |inodes| :: inodes[k].size == inodes0[k].size
  {
  }

  // ---------- one block of a write ----------

  /** What bmap did: `a` is where block `bn` of file `i` is. */
  ghost predicate Bmapped(sb: Super, d: Disk, inodes: seq<Inode>, owner: Owners, now: set<nat>, d': Disk,
                          inodes': seq<Inode>, owner': Owners, now': set<nat>, i: nat, bn: nat, a: nat) {
    && Mapped(sb, d, inodes, owner, d', inodes', owner', i, bn) && i < |inodes|
    && Logs(sb, now, now', owner, owner', i, bn, bn + 1) && LoggedAll(d, d', now, now')
    && NewLogged(owner, owner', now')
    && (Addr(d, inodes[i], bn) != 0 ==> now' == now)
    && bn < MAXFILE && 0 < a < |d'| && a == Addr(d', inodes'[i], bn)
  }

  lemma IsBmapped(sb: Super, d: Disk, inodes: seq<Inode>, owner: Owners, now: set<nat>, d': Disk, inodes': seq<Inode>,
                  owner': Owners, now': set<nat>, i: nat, bn: nat, a: nat)
    requires Mapped(sb, d, inodes, owner, d', inodes', owner', i, bn) && i < |inodes|
    requires Logs(sb, now, now', owner, owner', i, bn, bn + 1) && LoggedAll(d, d', now, now')
    requires forall x | x in owner' && x !in owner :: x in now'
    requires Addr(d, inodes[i], bn) != 0 ==> now' == now
    requires bn < MAXFILE && 0 < a < |d'| && a == Addr(d', inodes'[i], bn)
    ensures Bmapped(sb, d, inodes, owner, now, d', inodes', owner', now', i, bn, a)
  {
  }

  /** The read so far, with the blocks before `hi` looked up: nothing is different for readers, what was
      allocated is logged, and the inode is not. */
  ghost predicate InRead(sb: Super, d0: Disk, inodes0: seq<Inode>, owner0: Owners, was: set<nat>, d: Disk,
                         inodes: seq<Inode>, owner: Owners, now: set<nat>, i: nat, off: nat, hi: nat) {
    && Wrote(sb, d0, inodes0, owner0, d, inodes, owner, i, off, []) && NewLogged(owner0, owner, now)
    && (forall k | 0 <= k < |inodes| && k != i :: inodes[k] == inodes0[k])
    && LoggedAll(d0, d, was, now) && (sb.inodestart + i / IPB in now ==> sb.inodestart + i / IPB in was)
    && Present(d, inodes[i], off / BSIZE, hi)
    && (Present(d0, inodes0[i], off / BSIZE, hi) ==> d == d0 && inodes == inodes0 && owner == owner0 && now == was)
    && (Pointed(inodes0[i], off / BSIZE, hi) ==> inodes == inodes0)
  }

  lemma InReadStart(sb: Super, d: Disk, inodes: seq<Inode>, owner: Owners, was: set<nat>, i: nat, off: nat)
    requires Ok(sb, d, inodes, owner) && i < |inodes|
    ensures InRead(sb, d, inodes, owner, was, d, inodes, owner, was, i, off, off / BSIZE)
            && Copied(d, inodes[i], off, [])
  {
    hide Ok;
    NothingWrote(sb, d, inodes, owner, i, off);
  }

  /** bmap does not log the inode. */
  lemma InodeUnlogged(sb: Super, n: nat, was: set<nat>, now: set<nat>, d: Disk, inodes: seq<Inode>, owner: Owners,
                      owner': Owners, i: nat, bn: nat)
    requires InodesFit(sb, n) && i < n && Ok(sb, d, inodes, owner') && Logs(sb, was, now, owner, owner', i, bn, bn + 1)
    ensures sb.inodestart + i / IPB in now ==> sb.inodestart + i / IPB in was
  {
    hide Used, Addr;
    var x := sb.inodestart + i / IPB;
    assert x < sb.bmapstart;
    assert x in owner' ==> OwnerOk(sb, d, inodes, x, owner'[x]);
  }

  lemma StaysPresent(sb: Super, d: Disk, inodes: seq<Inode>, owner: Owners, d': Disk, inodes': seq<Inode>,
                     owner': Owners, i: nat, lo: nat, hi: nat)
    requires Ok(sb, d, inodes, owner) && Mapped(sb, d, inodes, owner, d', inodes', owner', i, hi) && i < |inodes|
    requires Present(d, inodes[i], lo, hi) && Addr(d', inodes'[i], hi) != 0
    ensures Present(d', inodes'[i], lo, hi + 1)
  {
    hide Ok, Mapped, Addr;
    MappedSize(sb, d, inodes, owner, d', inodes', owner', i, hi);
    forall bn: nat | lo <= bn < hi + 1 ensures Addr(d', inodes'[i], bn) != 0 {
      StillThere(sb, d, inodes, owner, d', inodes', owner', i, hi, bn);
    }
  }

  /** One more block is looked up. */
  lemma InReadBmap(sb: Super, d0: Disk, inodes0: seq<Inode>, owner0: Owners, was: set<nat>, d: Disk, inodes: seq<Inode>,
                   owner: Owners, now: set<nat>, d': Disk, inodes': seq<Inode>, owner': Owners, now': set<nat>, i: nat,
                   off: nat, hi: nat)
    requires InRead(sb, d0, inodes0, owner0, was, d, inodes, owner, now, i, off, hi) && off / BSIZE <= hi
    requires Mapped(sb, d, inodes, owner, d', inodes', owner', i, hi) && LoggedAll(d, d', now, now')
    requires Logs(sb, now, now', owner, owner', i, hi, hi + 1) && InodesFit(sb, |inodes'|)
    requires forall x | x in owner' && x !in owner :: x in now'
    requires Addr(d, inodes[i], hi) != 0 ==> d' == d && inodes' == inodes && owner' == owner && now' == now
    requires Pointer(inodes[i], hi) != 0 ==> inodes' == inodes
    ensures Wrote(sb, d0, inodes0, owner0, d', inodes', owner', i, off, []) && |inodes'| == |inodes0|
    ensures Present(d0, inodes0[i], off / BSIZE, hi + 1) ==> Addr(d, inodes[i], hi) != 0
    ensures LoggedAll(d0, d', was, now')
    ensures Addr(d', inodes'[i], hi) != 0
            ==> InRead(sb, d0, inodes0, owner0, was, d', inodes', owner', now', i, off, hi + 1)
  {
    hide Ok, Wrote, Addr, Logs, LoggedAll, NewLogged, InodesFit, Pointer;
    WroteNothing(sb, d0, inodes0, owner0, d, inodes, owner, i, off);
    MappedOthers(sb, d, inodes, owner, d', inodes', owner', i, hi);
    AfterBmap(sb, d0, inodes0, owner0, d, inodes, owner, d', inodes', owner', i, off, [], hi);
    NewlyTaken(owner, owner', now');
    LoggedGrows(d, d', now, now');
    NewLoggedMore(owner0, owner, now, owner', now');
    LoggedTrans(d0, d, d', was, now, now');
    InodeUnlogged(sb, |inodes'|, now, now', d', inodes', owner, owner', i, hi);
    if Addr(d', inodes'[i], hi) != 0 {
      StaysPresent(sb, d, inodes, owner, d', inodes', owner', i, off / BSIZE, hi);
    }
    assert Present(d0, inodes0[i], off / BSIZE, hi + 1) ==> Present(d0, inodes0[i], off / BSIZE, hi);
    assert Pointed(inodes0[i], off / BSIZE, hi + 1)
           ==> Pointed(inodes0[i], off / BSIZE, hi) && Pointer(inodes0[i], hi) != 0;
  }

  lemma MappedOthers(sb: Super, d: Disk, inodes: seq<Inode>, owner: Owners, d': Disk, inodes': seq<Inode>,
                     owner': Owners, i: nat, bn: nat)
    requires Mapped(sb, d, inodes, owner, d', inodes', owner', i, bn)
    ensures |inodes'| == |inodes| && Ok(sb, d', inodes', owner')
    ensures forall k | 0 <= k < |inodes| && k != i :: inodes'[k] == inodes[k]
  {
  }

  /** Taking a block changes the disk. */
  lemma TakenDiffers(sb: Super, d0: Disk, inodes0: seq<Inode>, owner0: Owners, d: Disk, inodes: seq<Inode>,
                     owner: Owners, a: nat)
    requires Ok(sb, d0, inodes0, owner0) && Ok(sb, d, inodes, owner) && a !in owner0 && a in owner
    ensures d != d0
  {
    hide Used, Addr;
    assert OwnerOk(sb, d, inodes, a, owner[a]);
    assert Used(sb, d, a) && !Used(sb, d0, a);
  }

  /** A block that is there is pointed to. */
  lemma PresentPointed(d: Disk, ip: Inode, lo: nat, hi: nat)
    requires Present(d, ip, lo, hi)
    ensures Pointed(ip, lo, hi)
  {
    forall bn: nat | lo <= bn < hi ensures Pointer(ip, bn) != 0 {
      assert Addr(d, ip, bn) != 0;
    }
  }

  /** What looking up blocks `lo` to `hi` does.  Nothing at all is different exactly if all are there; each that
      was not was taken and logged; the inode is different exactly if it did not lead to one of them, and then
      it is not logged by this call. */
  ghost predicate ReadEffect(sb: Super, d0: Disk, inodes0: seq<Inode>, owner0: Owners, was: set<nat>, d: Disk,
                             inodes: seq<Inode>, owner: Owners, now: set<nat>, i: nat, lo: nat, hi: nat) {
    && i < |inodes| == |inodes0|
    && (d == d0 <==> Present(d0, inodes0[i], lo, hi))
    && (d == d0 ==> inodes == inodes0 && owner == owner0 && now == was)
    && (forall bn: nat | lo <= bn < hi && Addr(d0, inodes0[i], bn) == 0 :: Took(d, inodes[i], owner0, owner, now, bn))
    && (inodes == inodes0 <==> Pointed(inodes0[i], lo, hi))
    && (forall k | 0 <= k < |inodes| && k != i :: inodes[k] == inodes0[k])
    && (LoggedInodes(sb, inodes0, inodes, now) <==> inodes == inodes0 || sb.inodestart + i / IPB in was)
  }

  lemma InReadEnd(sb: Super, d0: Disk, inodes0: seq<Inode>, owner0: Owners, was: set<nat>, d: Disk, inodes: seq<Inode>,
                  owner: Owners, now: set<nat>, i: nat, off: nat, hi: nat)
    requires InRead(sb, d0, inodes0, owner0, was, d, inodes, owner, now, i, off, hi)
    ensures SameBytes(d0, inodes0, d, inodes) && i < |inodes| == |inodes0| && LoggedAll(d0, d, was, now)
    ensures forall k | 0 <= k < |inodes| :: inodes[k].size == inodes0[k].size
    ensures ReadEffect(sb, d0, inodes0, owner0, was, d, inodes, owner, now, i, off / BSIZE, hi)
  {
    hide Ok, Addr, NewLogged, Spliced, LoggedAll, Pointer;
    WroteNothing(sb, d0, inodes0, owner0, d, inodes, owner, i, off);
    PresentPointed(d, inodes[i], off / BSIZE, hi);
    forall bn: nat | off / BSIZE <= bn < hi && Addr(d0, inodes0[i], bn) == 0
      ensures Took(d, inodes[i], owner0, owner, now, bn) && d != d0
    {
      NowThere(sb, d0, inodes0, owner0, d, inodes, owner, now, i, off, bn);
      TakenDiffers(sb, d0, inodes0, owner0, d, inodes, owner, Addr(d, inodes[i], bn));
    }
    InodeChange(sb, d0, inodes0, d, inodes, was, now, i);
  }

  /** Block `bn` was taken and logged. */
  ghost predicate Took(d: Disk, ip: Inode, owner0: Owners, owner: Owners, now: set<nat>, bn: nat) {
    var a := Addr(d, ip, bn);
    a != 0 && a !in owner0 && a in owner && a in now
  }

  lemma InodeChange(sb: Super, d0: Disk, inodes0: seq<Inode>, d: Disk, inodes: seq<Inode>, was: set<nat>, now: set<nat>,
                    i: nat)
    requires |inodes| == |inodes0| && i < |inodes| && LoggedAll(d0, d, was, now)
    requires forall k | 0 <= k < |inodes| && k != i :: inodes[k] == inodes0[k]
    requires sb.inodestart + i / IPB in now ==> sb.inodestart + i / IPB in was
    ensures LoggedInodes(sb, inodes0, inodes, now) <==> inodes == inodes0 || sb.inodestart + i / IPB in was
  {
  }

  /** The write so far: the bytes `s` are stored at `off`, up to offset `o`. */
  ghost predicate InWrite(sb: Super, d0: Disk, inodes0: seq<Inode>, owner0: Owners, was: set<nat>, d: Disk,
                          inodes: seq<Inode>, owner: Owners, now: set<nat>, i: nat, off: nat, s: seq<Byte>, o: nat,
                          hi: nat, more: bool) {
    && Wrote(sb, d0, inodes0, owner0, d, inodes, owner, i, off, s) && Reaches(d, inodes[i], off, o)
    && Logs(sb, was, now, owner0, owner, i, off / BSIZE, hi)
    && Writing(d0, inodes0, owner0, d, inodes, owner, was, now, i, o, more)
  }

  lemma InWriteStart(sb: Super, d: Disk, inodes: seq<Inode>, owner: Owners, was: set<nat>, i: nat, off: nat, hi: nat,
                     more: bool)
    requires Ok(sb, d, inodes, owner) && i < |inodes|
    ensures InWrite(sb, d, inodes, owner, was, d, inodes, owner, was, i, off, [], off, hi, more)
  {
    hide Ok, SameBytes, Spliced, Reaches, Logs, Writing;
    WriteStart(sb, d, inodes, owner, was, i, off, hi);
    WritingStart(d, inodes, owner, was, i, off, more);
  }

  /** The facts about the state after bmap that both copies need. */
  lemma InWriteBmap(sb: Super, d0: Disk, inodes0: seq<Inode>, owner0: Owners, was: set<nat>, d: Disk,
                    inodes: seq<Inode>, owner: Owners, now: set<nat>, d': Disk, inodes': seq<Inode>, owner': Owners,
                    now': set<nat>, i: nat, off: nat, s: seq<Byte>, o: nat, hi: nat, a: nat)
    requires InWrite(sb, d0, inodes0, owner0, was, d, inodes, owner, now, i, off, s, o, hi, true)
    requires Bmapped(sb, d, inodes, owner, now, d', inodes', owner', now', i, o / BSIZE, a)
    requires off / BSIZE <= o / BSIZE < hi && a in owner' && owner'[a] == Data(i, o / BSIZE)
    ensures Wrote(sb, d0, inodes0, owner0, d', inodes', owner', i, off, s)
    ensures Writing(d0, inodes0, owner0, d', inodes', owner', was, now', i, o, true)
    ensures Logs(sb, was, now', owner0, owner', i, off / BSIZE, hi)
            && Logs(sb, was, now' + {a}, owner0, owner', i, off / BSIZE, hi)
  {
    hide Ok, SameBytes, Spliced, Reaches, Logs, Writing, LoggedAll, NewLogged, Addr, Extends;
    AfterBmap(sb, d0, inodes0, owner0, d, inodes, owner, d', inodes', owner', i, off, s, o / BSIZE);
    WritingBmap(sb, d0, inodes0, owner0, d, inodes, owner, was, now, d', inodes', owner', now', i, o);
    LogMore(sb, was, now, owner0, owner, now', owner', i, o / BSIZE, off / BSIZE, hi, a);
  }

  /** Storing into the block: offsets up to `o'` are backed by blocks. */
  lemma InWriteReaches(sb: Super, d0: Disk, inodes0: seq<Inode>, owner0: Owners, was: set<nat>, d: Disk,
                       inodes: seq<Inode>, owner: Owners, now: set<nat>, d': Disk, inodes': seq<Inode>, owner': Owners,
                       now': set<nat>, i: nat, off: nat, s: seq<Byte>, o: nat, hi: nat, a: nat, m: nat, blk: Block,
                       o': nat)
    requires InWrite(sb, d0, inodes0, owner0, was, d, inodes, owner, now, i, off, s, o, hi, true)
    requires Bmapped(sb, d, inodes, owner, now, d', inodes', owner', now', i, o / BSIZE, a)
    requires o % BSIZE + m <= BSIZE && o' <= o + m <= MAXFILE * BSIZE
    ensures Reaches(d'[a := blk], inodes'[i], off, o') && a in owner' && owner'[a] == Data(i, o / BSIZE)
  {
    hide Ok, SameBytes, Spliced, Logs, Writing, LoggedAll, NewLogged, Addr, Extends, Reaches;
    Reached(sb, d, inodes, owner, d', inodes', owner', i, off, o, m, a, blk, o');
  }

  /** A block copied whole. */
  lemma InWriteFull(sb: Super, d0: Disk, inodes0: seq<Inode>, owner0: Owners, was: set<nat>, d: Disk,
                    inodes: seq<Inode>, owner: Owners, now: set<nat>, d': Disk, inodes': seq<Inode>, owner': Owners,
                    now': set<nat>, i: nat, off: nat, src: seq<Byte>, tot: nat, hi: nat, a: nat, m: nat, more: bool)
    requires tot + m <= |src| && off + tot + m <= MAXFILE * BSIZE && (off + tot) % BSIZE + m <= BSIZE
    requires off / BSIZE <= (off + tot) / BSIZE < hi && (more ==> (off + tot) / BSIZE < (off + tot + m) / BSIZE)
    requires InWrite(sb, d0, inodes0, owner0, was, d, inodes, owner, now, i, off, src[..tot], off + tot, hi, true)
    requires Bmapped(sb, d, inodes, owner, now, d', inodes', owner', now', i, (off + tot) / BSIZE, a)
    ensures InWrite(sb, d0, inodes0, owner0, was, d'[a := Patch(d'[a], (off + tot) % BSIZE, src[tot..tot + m])],
                    inodes', owner', now' + {a}, i, off, src[..tot + m], off + tot + m, hi, more)
  {
    hide Ok, SameBytes, Spliced, Logs, Writing, LoggedAll, NewLogged, Addr, Extends, Reaches, Patch;
    var o, t := off + tot, src[tot..tot + m];
    var blk := Patch(d'[a], o % BSIZE, t);
    InWriteReaches(sb, d0, inodes0, owner0, was, d, inodes, owner, now, d', inodes', owner', now', i, off, src[..tot],
                   o, hi, a, m, blk, o + m);
    InWriteBmap(sb, d0, inodes0, owner0, was, d, inodes, owner, now, d', inodes', owner', now', i, off, src[..tot], o,
                hi, a);
    AfterStore(sb, d0, inodes0, owner0, d', inodes', owner', i, off, src[..tot], t, a);
    assert src[..tot] + t == src[..tot + m];
    WritingStore(d0, inodes0, owner0, d', inodes', owner', was, now', i, o, o + m, more, a, blk);
  }

  /** The copy that fails. */
  lemma InWritePart(sb: Super, d0: Disk, inodes0: seq<Inode>, owner0: Owners, was: set<nat>, d: Disk,
                    inodes: seq<Inode>, owner: Owners, now: set<nat>, d': Disk, inodes': seq<Inode>, owner': Owners,
                    now': set<nat>, i: nat, off: nat, src: seq<Byte>, tot: nat, hi: nat, a: nat, readable: nat, x: nat)
    requires tot <= readable < |src| && off + readable <= MAXFILE * BSIZE
             && (off + tot) % BSIZE + (readable - tot) <= BSIZE
    requires off / BSIZE <= (off + tot) / BSIZE < hi && tot == Whole(off, |src|, readable) && x < sb.datastart
    requires InWrite(sb, d0, inodes0, owner0, was, d, inodes, owner, now, i, off, src[..tot], off + tot, hi, true)
    requires Bmapped(sb, d, inodes, owner, now, d', inodes', owner', now', i, (off + tot) / BSIZE, a)
    ensures AtEnd(sb, d0, inodes0, owner0, was, d'[a := Patch(d'[a], (off + tot) % BSIZE, src[tot..readable])], inodes',
                  owner', now', i, off, src, readable, src[..readable], off + tot, hi, x)
  {
    hide Ok, SameBytes, Spliced, Logs, Writing, LoggedAll, NewLogged, Addr, Extends, Reaches, Patch, Torn, Whole;
    var o, t := off + tot, src[tot..readable];
    var blk := Patch(d'[a], o % BSIZE, t);
    InWriteReaches(sb, d0, inodes0, owner0, was, d, inodes, owner, now, d', inodes', owner', now', i, off, src[..tot],
                   o, hi, a, readable - tot, blk, o);
    InWriteBmap(sb, d0, inodes0, owner0, was, d, inodes, owner, now, d', inodes', owner', now', i, off, src[..tot], o,
                hi, a);
    AfterStore(sb, d0, inodes0, owner0, d', inodes', owner', i, off, src[..tot], t, a);
    assert src[..tot] + t == src[..readable];
    WritingTorn(sb, d0, inodes0, owner0, d', inodes', owner', was, now', i, off, src, readable, tot, o, a, x,
                d'[a := blk]);
    WritingInodes(d0, inodes0, owner0, d', inodes', owner', was, now', i, o, true);
  }

  lemma InWriteOk(sb: Super, d0: Disk, inodes0: seq<Inode>, owner0: Owners, was: set<nat>, d: Disk, inodes: seq<Inode>,
                  owner: Owners, now: set<nat>, i: nat, off: nat, s: seq<Byte>, o: nat, hi: nat, more: bool)
    requires InWrite(sb, d0, inodes0, owner0, was, d, inodes, owner, now, i, off, s, o, hi, more)
    ensures Ok(sb, d, inodes, owner)
  {
    hide Ok, SameBytes, Spliced, Logs, Writing, Reaches;
  }

  /** Where a block is missing now, it was missing at the start. */
  lemma InWriteHole(sb: Super, d0: Disk, inodes0: seq<Inode>, owner0: Owners, was: set<nat>, d: Disk,
                    inodes: seq<Inode>, owner: Owners, now: set<nat>, i: nat, off: nat, s: seq<Byte>, o: nat, hi: nat,
                    more: bool)
    requires InWrite(sb, d0, inodes0, owner0, was, d, inodes, owner, now, i, off, s, o, hi, more)
    ensures i < |inodes| == |inodes0| && (Addr(d, inodes[i], o / BSIZE) == 0 ==> Addr(d0, inodes0[i], o / BSIZE) == 0)
  {
    hide Ok, SameBytes, Spliced, Logs, Writing, Reaches, Addr;
    AddrsStay(sb, d0, inodes0, owner0, d, inodes, owner, i, o / BSIZE);
  }

  lemma MappedSize(sb: Super, d: Disk, inodes: seq<Inode>, owner: Owners, d': Disk, inodes': seq<Inode>, owner': Owners,
                   i: nat, bn: nat)
    requires Mapped(sb, d, inodes, owner, d', inodes', owner', i, bn)
    ensures |inodes'| == |inodes|
  {
  }

  lemma BlockRange(off: nat, tot: nat, n: nat)
    requires tot < n
    ensures off / BSIZE <= (off + tot) / BSIZE < (off + n + BSIZE - 1) / BSIZE
    ensures (off + tot) / BSIZE * BSIZE < off + n && (off + n <= MAXFILE * BSIZE ==> (off + tot) / BSIZE < MAXFILE)
  {
  }

  /** The copy of everything. */
  lemma InWriteEnd(sb: Super, d0: Disk, inodes0: seq<Inode>, owner0: Owners, was: set<nat>, d: Disk, inodes: seq<Inode>,
                   owner: Owners, now: set<nat>, i: nat, off: nat, src: seq<Byte>, o: nat, hi: nat, more: bool,
                   readable: nat, x: nat)
    requires InWrite(sb, d0, inodes0, owner0, was, d, inodes, owner, now, i, off, src, o, hi, more) && |src| <= readable
    requires o == off + |src|
    ensures AtEnd(sb, d0, inodes0, owner0, was, d, inodes, owner, now, i, off, src, readable, src, o, hi, x)
  {
    hide Ok, SameBytes, Spliced, Logs, Writing, LoggedAll, Torn, Reaches, Whole;
    WholeAll(off, |src|, readable);
    assert src[..|src|] == src;
    WritingEnd(d0, inodes0, owner0, d, inodes, owner, was, now, i, o, more, x, off, src, readable);
    WritingInodes(d0, inodes0, owner0, d, inodes, owner, was, now, i, o, more);
  }

  /** All copies are done: the bytes `s` are stored, and offsets up to `o` count. */
  ghost predicate AtEnd(sb: Super, d0: Disk, inodes0: seq<Inode>, owner0: Owners, was: set<nat>, d: Disk,
                        inodes: seq<Inode>, owner: Owners, now: set<nat>, i: nat, off: nat, src: seq<Byte>,
                        readable: nat, s: seq<Byte>, o: nat, hi: nat, x: nat) {
    && Wrote(sb, d0, inodes0, owner0, d, inodes, owner, i, off, s) && Reaches(d, inodes[i], off, o)
    && s == src[..Min(|src|, readable)] && o == off + Whole(off, |src|, readable)
    && Logs(sb, was, now, owner0, owner, i, off / BSIZE, hi)
    && (LoggedAll(d0, d, was, now + {x}) <==> !Torn(d0, inodes0[i], was, off, src, readable))
    && (src == [] ==> LoggedAll(d0, d, was, now) && !Torn(d0, inodes0[i], was, off, src, readable))
    && i < |inodes| == |inodes0| && forall k | 0 <= k < |inodes| && k != i :: inodes[k] == inodes0[k]
  }

  lemma EndOfWrite(sb: Super, d0: Disk, inodes0: seq<Inode>, owner0: Owners, was: set<nat>, d: Disk, inodes: seq<Inode>,
                   owner: Owners, now: set<nat>, i: nat, off: nat, src: seq<Byte>, readable: nat, s: seq<Byte>, o: nat,
                   x: nat, inodes': seq<Inode>)
    requires AtEnd(sb, d0, inodes0, owner0, was, d, inodes, owner, now, i, off, src, readable, s, o,
                   (off + |src| + BSIZE - 1) / BSIZE, x)
    requires off <= inodes0[i].size && o <= MAXFILE * BSIZE && x == sb.inodestart + i / IPB
    requires inodes' == inodes[i := inodes[i].(size := Max(inodes[i].size, o))]
    ensures Ok(sb, d, inodes', owner) && Written(d0, inodes0, d, inodes', i, off, src, readable)
            && |inodes'| == |inodes0|
    ensures WriteLogs(sb, was, now, owner0, owner, i, off, |src|)
            && WriteLogs(sb, was, now + {x}, owner0, owner, i, off, |src|)
    ensures LoggedAll(d0, d, was, now + {x}) <==> !Torn(d0, inodes0[i], was, off, src, readable)
    ensures src == [] ==> LoggedAll(d0, d, was, now) && !Torn(d0, inodes0[i], was, off, src, readable)
    ensures LoggedInodes(sb, inodes0, inodes', now + {x})
  {
    hide Ok, Wrote, Reaches, Written, Logs, WriteLogs, LoggedAll, LoggedInodes, Torn, Whole;
    LogInode(sb, was, now, owner0, owner, i, off, |src|);
    WriteEnd(sb, d0, inodes0, owner0, d, inodes, owner, i, off, src, readable, s, o);
    InodeLogged(sb, inodes0, inodes', i, now + {x});
  }

  // ---------- the log reservation of a write ----------

  /** The most filewrite gives to one writei. */
  const CHUNK := (MAXOPBLOCKS - 1 - 1 - 2) / 2 * BSIZE

  lemma BitmapCount(sb: Super, taken: set<nat>)
    ensures |BitmapBlocks(sb, taken)| <= |taken|
    decreases taken
  {
    if y :| y in taken {
      var rest := taken - {y};
      BitmapCount(sb, rest);
      forall x | x in BitmapBlocks(sb, taken) ensures x in BitmapBlocks(sb, rest) + {sb.bmapstart + y / BPB} {
        var z :| z in taken && x == sb.bmapstart + z / BPB;
        assert z == y || z in rest;
      }
      SetBound(BitmapBlocks(sb, taken), BitmapBlocks(sb, rest) + {sb.bmapstart + y / BPB}, |taken|);
    } else {
      assert BitmapBlocks(sb, taken) == {};
    }
  }

  /** No two blocks have the same use, so a range of `hi - lo` blocks has no more than those and
      the indirect block. */
  lemma RangeCount(owner: Owners, i: nat, lo: nat, hi: nat, xs: set<nat>)
    requires lo <= hi && forall x | x in xs :: x in owner && OfRange(owner[x], i, lo, hi)
    requires forall x, y | x in xs && y in xs && owner[x] == owner[y] :: x == y
    ensures |xs| <= hi - lo + 1
    decreases hi
  {
    if lo == hi {
      if x :| x in xs {
        assert xs == {x};
      }
    } else if x :| x in xs && owner[x] == Data(i, hi - 1) {
      assert forall y | y in xs - {x} :: owner[y] != Data(i, hi - 1);
      RangeCount(owner, i, lo, hi - 1, xs - {x});
    } else {
      RangeCount(owner, i, lo, hi - 1, xs);
    }
  }

  lemma OneUse(sb: Super, d: Disk, inodes: seq<Inode>, owner: Owners)
    requires Ok(sb, d, inodes, owner)
    ensures forall x, y | x in owner && y in owner && owner[x] == owner[y] && !owner[x].Meta? :: x == y
  {
    forall x, y | x in owner && y in owner && owner[x] == owner[y] && !owner[x].Meta? ensures x == y {
      assert OwnerOk(sb, d, inodes, x, owner[x]) && OwnerOk(sb, d, inodes, y, owner[y]);
    }
  }

  lemma SetBound(s: set<nat>, t: set<nat>, n: nat)
    requires s <= t && |t| <= n
    ensures |s| <= n
    decreases s
  {
    if x :| x in s {
      SetBound(s - {x}, t - {x}, n - 1);
    }
  }

  /** One chunk of filewrite stays within the reservation of its operation: at most 10 blocks when
      the file has no holes, whatever the size of the bitmap, and at most 7 with one bitmap block. */
  lemma ChunkBound(sb: Super, d0: Disk, inodes0: seq<Inode>, owner0: Owners, d: Disk, inodes: seq<Inode>, owner: Owners,
                   logged: set<nat>, i: nat, off: nat, n: nat, x0: nat)
    requires Ok(sb, d, inodes, owner) && Ok(sb, d0, inodes0, owner0) && i < |inodes| == |inodes0| && n <= CHUNK
    requires off <= inodes0[i].size
    requires Logs(sb, {x0}, logged, owner0, owner, i, off / BSIZE, (off + n + BSIZE - 1) / BSIZE)
    ensures NoHoles(d0, inodes0[i]) ==> |logged| <= MAXOPBLOCKS
    ensures sb.size <= BPB ==> |logged| <= 7
  {
    hide Ok, Addr, NoHoles, Logs;
    var lo, hi := off / BSIZE, (off + n + BSIZE - 1) / BSIZE;
    var taken := owner.Keys - owner0.Keys;
    RangeSize(off, n);
    LoggedCount(sb, d, inodes, owner0, owner, logged, i, lo, hi, x0);
    if sb.size <= BPB {
      OneBitmapBlock(sb, d, inodes, owner, taken);
      SetBound(BitmapBlocks(sb, taken), {sb.bmapstart}, 1);
    }
    if NoHoles(d0, inodes0[i]) {
      BitmapCount(sb, taken);
      TakenCount(sb, d0, inodes0, owner0, d, inodes, owner, logged, i, off, n, x0);
    }
  }

  /** At most four blocks are touched, three from a block's start. */
  lemma RangeSize(off: nat, n: nat)
    requires n <= CHUNK
    ensures var lo, hi := off / BSIZE, (off + n + BSIZE - 1) / BSIZE;
            lo <= hi <= lo + (if off % BSIZE == 0 then 3 else 4) && (off % BSIZE != 0 ==> lo < hi)
  {
    assert CHUNK == 3 * BSIZE;
  }

  lemma LoggedCount(sb: Super, d: Disk, inodes: seq<Inode>, owner0: Owners, owner: Owners, logged: set<nat>, i: nat,
                    lo: nat, hi: nat, x0: nat)
    requires Ok(sb, d, inodes, owner) && Logs(sb, {x0}, logged, owner0, owner, i, lo, hi) && lo <= hi
    ensures |logged| <= 1 + |BitmapBlocks(sb, owner.Keys - owner0.Keys)| + (hi - lo + 1)
  {
    hide Ok;
    var data := set x | x in logged && x in owner && OfRange(owner[x], i, lo, hi);
    OneUse(sb, d, inodes, owner);
    RangeCount(owner, i, lo, hi, data);
    Count(logged, x0, BitmapBlocks(sb, owner.Keys - owner0.Keys), data);
  }

  /** Four blocks are taken at most: three for data, or the first was there, and the indirect block. */
  lemma TakenCount(sb: Super, d0: Disk, inodes0: seq<Inode>, owner0: Owners, d: Disk, inodes: seq<Inode>, owner: Owners,
                   logged: set<nat>, i: nat, off: nat, n: nat, x0: nat)
    requires Ok(sb, d, inodes, owner) && Ok(sb, d0, inodes0, owner0) && i < |inodes| == |inodes0| && n <= CHUNK
    requires off <= inodes0[i].size && NoHoles(d0, inodes0[i])
    requires Logs(sb, {x0}, logged, owner0, owner, i, off / BSIZE, (off + n + BSIZE - 1) / BSIZE)
    ensures |owner.Keys - owner0.Keys| <= 4
  {
    hide Ok, Addr, NoHoles;
    var lo, hi := off / BSIZE, (off + n + BSIZE - 1) / BSIZE;
    RangeSize(off, n);
    OneUse(sb, d, inodes, owner);
    if off % BSIZE == 0 {
      RangeCount(owner, i, lo, hi, owner.Keys - owner0.Keys);
    } else {
      FirstKept(sb, d0, inodes0, owner0, d, inodes, owner, i, off);
      RangeCount(owner, i, lo + 1, hi, owner.Keys - owner0.Keys);
    }
  }

  /** Within a block the file has already, no first block is taken. */
  lemma FirstKept(sb: Super, d0: Disk, inodes0: seq<Inode>, owner0: Owners, d: Disk, inodes: seq<Inode>, owner: Owners,
                  i: nat, off: nat)
    requires Ok(sb, d, inodes, owner) && Ok(sb, d0, inodes0, owner0) && i < |inodes| == |inodes0|
    requires NoHoles(d0, inodes0[i]) && off <= inodes0[i].size && off % BSIZE != 0
    requires forall x | x in owner0 :: x in owner && owner[x] == owner0[x]
    ensures forall x | x in owner && owner[x] == Data(i, off / BSIZE) :: x in owner0
  {
    hide Ok, Addr, NoHoles;
    HoleFree(d0, inodes0[i], off - 1);
    assert off / BSIZE == (off - 1) / BSIZE;
    AddrsStay(sb, d0, inodes0, owner0, d, inodes, owner, i, off / BSIZE);
    OwnedBlocks(sb, d, inodes, owner, i);
    assert forall x | x in owner && owner[x] == Data(i, off / BSIZE) :: OfFile(owner[x], i);
  }

  lemma OneBitmapBlock(sb: Super, d: Disk, inodes: seq<Inode>, owner: Owners, taken: set<nat>)
    requires Ok(sb, d, inodes, owner) && taken <= owner.Keys && sb.size <= BPB
    ensures BitmapBlocks(sb, taken) <= {sb.bmapstart}
  {
    forall y | y in taken ensures y / BPB == 0 {
      assert OwnerOk(sb, d, inodes, y, owner[y]);
    }
  }

  lemma Count(logged: set<nat>, x0: nat, bitmap: set<nat>, data: set<nat>)
    requires logged <= {x0} + bitmap + data
    ensures |logged| <= 1 + |bitmap| + |data|
  {
    assert |{x0} + bitmap| <= 1 + |bitmap|;
    assert |{x0} + bitmap + data| <= 1 + |bitmap| + |data|;
    SetBound(logged, {x0} + bitmap + data, 1 + |bitmap| + |data|);
  }

  // ---------- whole writes ----------

  /** How many bytes filewrite stores: whole chunks, until one would pass the largest file. */
  function Accepted(size: nat, off: nat, n: nat): (done: nat) {
    if off > size then 0
    else if off + n <= MAXFILE * BSIZE then n
    else if off > MAXFILE * BSIZE then 0
    else (MAXFILE * BSIZE - off) / CHUNK * CHUNK
  }

  /** Between operations, only whole chunks were written, or all. */
  predicate AtChunk(k: nat, n: nat) {
    k == n || k % CHUNK == 0
  }

  lemma AtStart(n: nat)
    ensures AtChunk(0, n)
  {
  }

  lemma NextChunk(k: nat, n: nat)
    requires AtChunk(k, n) && k < n
    ensures var n1 := Min(n - k, CHUNK);
            && 0 < n1 <= CHUNK && k + n1 <= n && AtChunk(k + n1, n)
            && (n1 == 3072 || (n1 < 3072 && k + n1 == n))
  {
    assert CHUNK == 3072;
  }

  /** filewrite has stopped before the end, at `o` after the first `k` bytes: the next chunk starts beyond
      the end of the file, or would pass the largest file. */
  ghost predicate Stopped(size: nat, o: nat, k: nat, n: nat) {
    && k < n && k % 3072 == 0
    && (o > size || o + (if n - k < 3072 then n - k else 3072) > 268 * 1024)
  }

  lemma StoppedHere(size: nat, o: nat, k: nat, n: nat)
    requires AtChunk(k, n) && k < n && WriteRefused(size, o, Min(n - k, CHUNK))
    ensures Stopped(size, o, k, n)
  {
    assert CHUNK == 3072;
  }

  /** How much of what comes after the first `k` bytes can be read. */
  function Left(readable: nat, k: nat): (m: nat) {
    if readable < k then 0 else readable - k
  }

  /** From byte `k` on: how many bytes filewrite reports, and the size the file gets.  A chunk whose copy
      fails is reported whole, but only what was copied whole counts for the size. */
  function Chunks(size: nat, off: nat, n: nat, readable: nat, k: nat): (r: (nat, nat))
    requires k <= n
    decreases n - k
  {
    if k == n then (k, size)
    else
      var n1 := Min(n - k, CHUNK);
      if WriteRefused(size, off + k, n1) then (k, size)
      else Chunks(Max(size, off + k + Whole(off + k, n1, Left(readable, k))), off, n, readable, k + n1)
  }

  lemma ChunksStep(size: nat, off: nat, n: nat, readable: nat, k: nat)
    requires k < n
    ensures var n1 := Min(n - k, CHUNK);
            && (WriteRefused(size, off + k, n1) ==> Chunks(size, off, n, readable, k) == (k, size))
            && k + n1 <= n
            && (!WriteRefused(size, off + k, n1) ==>
                  Chunks(size, off, n, readable, k)
                  == Chunks(Max(size, off + k + Whole(off + k, n1, Left(readable, k))), off, n, readable, k + n1))
  {
    hide Whole, WriteRefused;
  }

  lemma ChunksEnd(size: nat, off: nat, n: nat, readable: nat)
    ensures Chunks(size, off, n, readable, n) == (n, size)
  {
  }

  /** From chunk `q` on; `l` is the last chunk and `f` the one whose copy fails. */
  lemma {:induction false} ReportedFrom(size: nat, off: nat, n: nat, readable: nat, q: nat, l: nat, f: nat)
    requires q * 3072 < n && readable < n && off + q * 3072 <= size && off + n <= MAXFILE * BSIZE
    requires l * 3072 < n <= l * 3072 + 3072 && f * 3072 <= readable < f * 3072 + 3072
    ensures Chunks(size, off, n, readable, q * 3072).0 == n <==> l <= f || off + l * 3072 <= size
    decreases n - q * 3072
  {
    hide Whole, Chunks;
    assert CHUNK == 3072;
    var k := q * 3072;
    var n1 := Min(n - k, CHUNK);
    var w := Whole(off + k, n1, Left(readable, k));
    ChunksStep(size, off, n, readable, k);
    CountedIff(off + k, n1, Left(readable, k));
    if k + n1 < n {
      var size' := Max(size, off + k + w);
      ChunksStep(size', off, n, readable, k + n1);
      if off + k + 3072 <= size' {
        ReportedFrom(size', off, n, readable, q + 1, l, f);
      }
    } else {
      ChunksEnd(Max(size, off + k + w), off, n, readable);
    }
  }

  /** After a failed copy filewrite still reports success, exactly if the failure is in the last chunk or the
      file was long enough before for the chunks that follow to be accepted. */
  lemma ReportedIff(size: nat, off: nat, n: nat, readable: nat)
    requires readable < n && off <= size && off + n <= MAXFILE * BSIZE
    ensures Chunks(size, off, n, readable, 0).0 == n
            <==> (n - 1) / CHUNK == readable / CHUNK || off + (n - 1) / CHUNK * CHUNK <= size
  {
    hide Chunks;
    assert CHUNK == 3072;
    var l, f := (n - 1) / 3072, readable / 3072;
    assert l * 3072 <= n - 1 < l * 3072 + 3072 && f * 3072 <= readable < f * 3072 + 3072;
    ReportedFrom(size, off, n, readable, 0, l, f);
  }

  /** The bytes that could be read, of the first `k`, are in the file; nothing else changed in any file. */
  ghost predicate FileHolds(d: Disk, inodes: seq<Inode>, d': Disk, inodes': seq<Inode>, i: nat, off: nat,
                            src: seq<Byte>, readable: nat, k: nat)
    requires k <= |src|
  {
    && i < |inodes| == |inodes'| && Spliced(d, inodes, d', inodes', i, off, src[..Min(k, readable)])
    && forall j | 0 <= j < |inodes| && j != i :: inodes'[j].size == inodes[j].size
  }

  lemma FileHoldsMore(d0: Disk, inodes0: seq<Inode>, d: Disk, inodes: seq<Inode>, d': Disk, inodes': seq<Inode>, i: nat,
                      off: nat, src: seq<Byte>, readable: nat, k: nat, n1: nat)
    requires k + n1 <= |src| && FileHolds(d0, inodes0, d, inodes, i, off, src, readable, k)
    requires Written(d, inodes, d', inodes', i, off + k, src[k..k + n1], Left(readable, k))
    ensures FileHolds(d0, inodes0, d', inodes', i, off, src, readable, k + n1)
  {
    hide ByteAt, NoHoles, Whole;
    var s, t := src[..Min(k, readable)], src[k..k + n1][..Min(n1, Left(readable, k))];
    var u := src[..Min(k + n1, readable)];
    assert |t| > 0 ==> |s| == k;
    forall j, x: nat | 0 <= j < |inodes0| && x < MAXFILE * BSIZE
      ensures ByteAt(d', inodes'[j], x) == if j == i && off <= x < off + |u| then u[x - off]
                                           else ByteAt(d0, inodes0[j], x)
    {
      assert ByteAt(d, inodes[j], x) == if j == i && off <= x < off + |s| then s[x - off]
                                        else ByteAt(d0, inodes0[j], x);
    }
  }

  lemma FileHoldsNothing(d: Disk, inodes: seq<Inode>, i: nat, off: nat, src: seq<Byte>, readable: nat)
    requires i < |inodes|
    ensures FileHolds(d, inodes, d, inodes, i, off, src, readable, 0)
  {
  }

  lemma WrittenSize(d: Disk, inodes: seq<Inode>, d': Disk, inodes': seq<Inode>, i: nat, off: nat, src: seq<Byte>,
                    readable: nat)
    requires Written(d, inodes, d', inodes', i, off, src, readable)
    ensures i < |inodes| == |inodes'| && inodes'[i].size == Max(inodes[i].size, off + Whole(off, |src|, readable))
    ensures NoHoles(d, inodes[i]) ==> NoHoles(d', inodes'[i])
  {
    hide Spliced, NoHoles, Whole;
  }

  /** All of `n` bytes, or the chunks before the one that is refused. */
  lemma AcceptedAll(size: nat, off: nat, n: nat)
    requires n == 0 || (off <= size && off + n <= MAXFILE * BSIZE)
    ensures Accepted(size, off, n) == n
  {
    assert MAXFILE * BSIZE == 274432 && CHUNK == 3072;
  }

  lemma AcceptedPart(size: nat, off: nat, n: nat, k: nat, size': nat)
    requires AtChunk(k, n) && k < n && size <= MAXFILE * BSIZE
    requires if k == 0 then size' == size else off <= size && off + k <= MAXFILE * BSIZE && size' == Max(size, off + k)
    requires WriteRefused(size', off + k, Min(n - k, CHUNK))
    ensures Accepted(size, off, n) == k
  {
    var limit, q := MAXFILE * BSIZE - off, k / CHUNK;
    if off <= size {
      assert q * CHUNK <= limit < (q + 1) * CHUNK;
      assert limit / CHUNK == q;
    }
  }

  lemma AcceptedIs(size: nat, off: nat, n: nat)
    ensures var done := Accepted(size, off, n);
            && (off > size ==> done == 0)
            && (off <= size && off + n <= 274432 ==> done == n)
            && (off <= size && off + n > 274432 >= off ==>
                  done < n && done % 3072 == 0 && off + done <= 274432 < off + done + 3072)
  {
    assert MAXFILE * BSIZE == 274432 && CHUNK == 3072;
  }

  /** The bytes `s` were written at `off` of file `i`, and nothing else changed in any file. */
  ghost predicate FileWrote(d: Disk, inodes: seq<Inode>, d': Disk, inodes': seq<Inode>, i: nat, off: nat,
                            s: seq<Byte>) {
    && i < |inodes| == |inodes'| && Spliced(d, inodes, d', inodes', i, off, s)
    && inodes'[i].size == (if s == [] then inodes[i].size else Max(inodes[i].size, off + |s|))
    && forall k | 0 <= k < |inodes| && k != i :: inodes'[k].size == inodes[k].size
  }

  lemma SizeLimit(sb: Super, d: Disk, inodes: seq<Inode>, owner: Owners, i: nat)
    requires Ok(sb, d, inodes, owner) && i < |inodes|
    ensures inodes[i].size <= MAXFILE * BSIZE
  {
    assert InodeOk(sb, d, owner, i, inodes[i]);
  }

  lemma FileWroteNothing(d: Disk, inodes: seq<Inode>, i: nat, off: nat)
    requires i < |inodes|
    ensures FileWrote(d, inodes, d, inodes, i, off, [])
  {
  }

  lemma FileWroteSize(d: Disk, inodes: seq<Inode>, d': Disk, inodes': seq<Inode>, i: nat, off: nat, s: seq<Byte>)
    requires FileWrote(d, inodes, d', inodes', i, off, s)
    ensures i < |inodes| == |inodes'|
    ensures inodes'[i].size == (if s == [] then inodes[i].size else Max(inodes[i].size, off + |s|))
  {
  }

  lemma FileWroteMore(d0: Disk, inodes0: seq<Inode>, d: Disk, inodes: seq<Inode>, d': Disk, inodes': seq<Inode>, i: nat,
                      off: nat, src: seq<Byte>, k: nat, n1: nat, readable: nat)
    requires k + n1 <= |src| && n1 <= readable
    requires FileWrote(d0, inodes0, d, inodes, i, off, src[..k])
    requires Written(d, inodes, d', inodes', i, off + k, src[k..k + n1], readable)
    requires off + k <= inodes[i].size && n1 > 0
    ensures FileWrote(d0, inodes0, d', inodes', i, off, src[..k + n1])
  {
    hide ByteAt, NoHoles;
    WholeAll(off + k, n1, readable);
    var t := src[k..k + n1];
    assert t[..n1] == t;
    forall j, x: nat | 0 <= j < |inodes0| && x < MAXFILE * BSIZE
      ensures ByteAt(d', inodes'[j], x)
              == if j == i && off <= x < off + (k + n1) then src[..k + n1][x - off] else ByteAt(d0, inodes0[j], x)
    {
      assert ByteAt(d, inodes[j], x) == if j == i && off <= x < off + k then src[..k][x - off]
                                        else ByteAt(d0, inodes0[j], x);
    }
  }

  lemma BitPosition(b: nat, bi: nat)
    requires b % BPB == 0 && bi < BPB
    ensures (b + bi) / BPB == b / BPB && (b + bi) % BPB == bi && (b + bi) % 8 == bi % 8
  {
    assert b % 8 == 0;
  }

  /** The bit that balloc looks at, and the blocks it writes when the bit is clear. */
  lemma BitOfBlock(sb: Super, d: Disk, b: nat, bi: nat)
    requires sb.Valid() && |d| == sb.size && b % BPB == 0 && bi < BPB && b + bi < sb.size
    ensures sb.bmapstart + b / BPB < |d|
    ensures var x, bp := sb.bmapstart + b / BPB, d[sb.bmapstart + b / BPB];
            && Used(sb, d, b + bi) == Bit(bp[bi / 8], bi % 8) && (b + bi) / BPB == b / BPB
            && d[x := bp[bi / 8 := ByteWithBit(bp[bi / 8], bi % 8, true)]][b + bi := ZeroBlock()]
               == Taken(sb, d, b + bi)
  {
    hide Bit, WithBit, ByteWithBit, ZeroBlock;
    BitPosition(b, bi);
  }

  // ---------- the image mkfs writes ----------

  predicate MetaBlock(sb: Super, x: nat) {
    x < sb.datastart
  }

  lemma ZeroBits(j: nat)
    ensures !Bit(0, j)
    decreases j
  {
    if j > 0 {
      ZeroBits(j - 1);
    }
  }

  /** The bitmap block with the first `used` bits set. */
  method MarkFirst(used: nat) returns (buf: Block)
    requires used < BPB
    ensures forall x: nat | x < BPB :: Bit(buf[x / 8], x % 8) <==> x < used
  {
    hide Bit, WithBit, ByteWithBit;
    buf := ZeroBlock();
    forall x: nat | x < BPB ensures !Bit(buf[x / 8], x % 8) {
      ZeroBits(x % 8);
    }
    var i := 0;
    while i < used
      invariant i <= used
      invariant forall x: nat | x < BPB :: Bit(buf[x / 8], x % 8) <==> x < i
    {
      ghost var was := buf;
      buf := buf[i / 8 := ByteWithBit(buf[i / 8], i % 8, true)];
      forall x: nat | x < BPB ensures Bit(buf[x / 8], x % 8) == (x == i || Bit(was[x / 8], x % 8)) {
        assert x / 8 == i / 8 && x % 8 == i % 8 ==> x == i;
      }
      i := i + 1;
    }
  }

  lemma UsedFirst(sb: Super, d: Disk, buf: Block, x: nat)
    requires sb.Valid() && |d| == sb.size && sb.datastart < BPB && x < sb.size
    requires d[sb.bmapstart] == buf && forall b: nat | b < sb.size && b != sb.bmapstart :: d[b] == ZeroBlock()
    requires forall y: nat | y < BPB :: Bit(buf[y / 8], y % 8) <==> y < sb.datastart
    ensures Used(sb, d, x) <==> x < sb.datastart
  {
    hide Bit;
    if x >= BPB {
      ZeroBits(x % 8);
    }
  }

  /** The size mkfs gives the root directory. */
  function RootSize(off: nat): (size: nat) {
    (off / BSIZE + 1) * BSIZE
  }

  /** It leaves a hole exactly when the entries end at a block's end. */
  lemma RootHole(d: Disk, ip: Inode)
    requires NoHoles(d, ip) && forall bn: nat | bn * BSIZE >= ip.size :: Addr(d, ip, bn) == 0
    ensures NoHoles(d, ip.(size := RootSize(ip.size))) <==> ip.size % BSIZE != 0
  {
    hide Addr;
    var ip' := ip.(size := RootSize(ip.size));
    forall bn: nat ensures Addr(d, ip', bn) == Addr(d, ip, bn) {
      AddrOfMap(d, ip, bn, RootSize(ip.size));
    }
    var last := ip.size / BSIZE;
    assert last * BSIZE < ip'.size;
    if ip.size % BSIZE == 0 {
      assert last * BSIZE >= ip.size && Addr(d, ip', last) == 0;
    } else {
      assert forall bn: nat | bn * BSIZE < ip'.size :: bn * BSIZE < ip.size;
    }
  }

  lemma AddrOfMap(d: Disk, ip: Inode, bn: nat, size: nat)
    ensures Addr(d, ip.(size := size), bn) == Addr(d, ip, bn)
  {
  }

  /** The blocks of `n` inodes come before the bitmap. */
  predicate InodesFit(sb: Super, n: nat) {
    sb.inodestart + n / IPB < sb.bmapstart
  }

  // ---------- the operations of a write ----------

  /** One operation of the log in filewrite: the chunk it wrote, the state before and after, and what it logged. */
  datatype Op = Op(at: nat, len: nat, d: Disk, inodes: seq<Inode>, d': Disk, inodes': seq<Inode>, logged: set<nat>)

  /** The operations lead from one state to the other, chunk after chunk up to the first `k` bytes. */
  ghost predicate Follows(ops: seq<Op>, d0: Disk, inodes0: seq<Inode>, d: Disk, inodes: seq<Inode>, k: nat) {
    if ops == [] then d == d0 && inodes == inodes0 && k == 0
    else
      var op := ops[|ops| - 1];
      && op.d' == d && op.inodes' == inodes && op.at + op.len == k
      && Follows(ops[..|ops| - 1], d0, inodes0, op.d, op.inodes, op.at)
  }

  /** Everything the operation changed is logged, but for a torn block. */
  ghost predicate OpOk(sb: Super, op: Op, i: nat, off: nat, src: seq<Byte>, readable: nat) {
    && op.at + op.len <= |src| && 0 < op.len && (op.len == 3072 || (op.len < 3072 && op.at + op.len == |src|))
    && i < |op.inodes|
    && Written(op.d, op.inodes, op.d', op.inodes', i, off + op.at, src[op.at..op.at + op.len], Left(readable, op.at))
    && (LoggedAll(op.d, op.d', {}, op.logged)
        <==> !Torn(op.d, op.inodes[i], {}, off + op.at, src[op.at..op.at + op.len], Left(readable, op.at)))
    && LoggedInodes(sb, op.inodes, op.inodes', op.logged)
  }

  lemma OpIsOk(sb: Super, op: Op, i: nat, off: nat, src: seq<Byte>, readable: nat)
    requires op.at + op.len <= |src| && 0 < op.len && (op.len == 3072 || (op.len < 3072 && op.at + op.len == |src|))
    requires i < |op.inodes|
    requires var s, left := src[op.at..op.at + op.len], Left(readable, op.at);
             && Written(op.d, op.inodes, op.d', op.inodes', i, off + op.at, s, left)
             && (LoggedAll(op.d, op.d', {}, op.logged) <==> !Torn(op.d, op.inodes[i], {}, off + op.at, s, left))
    requires LoggedInodes(sb, op.inodes, op.inodes', op.logged)
    ensures OpOk(sb, op, i, off, src, readable)
  {
    hide Written, LoggedAll, Torn, LoggedInodes;
  }

  ghost predicate OpsOk(sb: Super, ops: seq<Op>, i: nat, off: nat, src: seq<Byte>, readable: nat) {
    forall j | 0 <= j < |ops| :: OpOk(sb, ops[j], i, off, src, readable)
  }

  ghost predicate OpsLog(ops: seq<Op>, most: nat) {
    forall j | 0 <= j < |ops| :: |ops[j].logged| <= most
  }

  lemma OpsNone(sb: Super, d: Disk, inodes: seq<Inode>, i: nat, off: nat, src: seq<Byte>, readable: nat)
    ensures Follows([], d, inodes, d, inodes, 0) && OpsOk(sb, [], i, off, src, readable)
    ensures forall most: nat :: OpsLog([], most)
  {
  }

  lemma OpsMore(sb: Super, ops: seq<Op>, op: Op, d0: Disk, inodes0: seq<Inode>, i: nat, off: nat, src: seq<Byte>,
                readable: nat)
    requires Follows(ops, d0, inodes0, op.d, op.inodes, op.at) && OpsOk(sb, ops, i, off, src, readable)
    requires OpOk(sb, op, i, off, src, readable)
    ensures Follows(ops + [op], d0, inodes0, op.d', op.inodes', op.at + op.len)
            && OpsOk(sb, ops + [op], i, off, src, readable)
    ensures forall most: nat | OpsLog(ops, most) && |op.logged| <= most :: OpsLog(ops + [op], most)
  {
    hide OpOk;
    assert (ops + [op])[..|ops|] == ops;
  }

  /** If all bytes can be read, every operation has logged everything it changed. */
  lemma AllLogged(sb: Super, ops: seq<Op>, i: nat, off: nat, src: seq<Byte>, readable: nat, j: nat)
    requires OpsOk(sb, ops, i, off, src, readable) && |src| <= readable && j < |ops|
    ensures LoggedAll(ops[j].d, ops[j].d', {}, ops[j].logged)
  {
    hide LoggedAll, LoggedInodes;
    var op := ops[j];
    assert OpOk(sb, op, i, off, src, readable);
    NotTorn(op.d, op.inodes[i], off + op.at, src[op.at..op.at + op.len], Left(readable, op.at));
  }

  class FileSystem {
    const sb: Super
    /** The blocks as reads through the buffer cache see them. */
    var blocks: Disk
    /** The in-memory inodes. */
    var inodes: seq<Inode>
    ghost var owner: Owners
    /** The blocks handed to log_write since the operation began. */
    var logged: set<nat>

    ghost predicate Valid()
      reads this
    {
      Ok(sb, blocks, inodes, owner) && InodesFit(sb, |inodes|)
    }

    /** The image of a disk without files: everything before the data blocks is in use. */
    constructor Mkfs(sb: Super, ninodes: nat)
      requires sb.Valid() && sb.datastart < BPB && InodesFit(sb, ninodes)
      ensures Valid() && this.sb == sb && inodes == seq(ninodes, _ => EMPTY) && logged == {}
      ensures forall x: nat | x < sb.size :: Used(sb, blocks, x) <==> x < sb.datastart
    {
      var buf := MarkFirst(sb.datastart);
      this.sb := sb;
      blocks := seq(sb.size, _ => ZeroBlock())[sb.bmapstart := buf];
      inodes := seq(ninodes, _ => EMPTY);
      owner := map x: nat | x < sb.datastart && MetaBlock(sb, x) :: Meta;
      logged := {};
      new;
      hide Bit;
      forall x: nat | x < sb.size ensures Used(sb, blocks, x) <==> x < sb.datastart {
        UsedFirst(sb, blocks, buf, x);
      }
      assert forall k | 0 <= k < |inodes| :: InodeOk(sb, blocks, owner, k, inodes[k]);
    }

    method LogWrite(b: nat, data: Block)
      requires b < |blocks|
      modifies `blocks, `logged
      ensures blocks == old(blocks)[b := data] && logged == old(logged) + {b}
    {
      blocks := blocks[b := data];
      logged := logged + {b};
    }

    /** Takes the first free block, zeroed. */
    method Balloc() returns (r: Option<nat>)
      requires sb.Valid() && |blocks| == sb.size
      modifies `blocks, `logged
      ensures r.None? ==> blocks == old(blocks) && logged == old(logged)
                          && forall x: nat | x < sb.size :: Used(sb, blocks, x)
      ensures r.Some? ==> && r.value < sb.size && !Used(sb, old(blocks), r.value)
                          && (forall x: nat | x < r.value :: Used(sb, old(blocks), x))
                          && blocks == Taken(sb, old(blocks), r.value)
                          && logged == old(logged) + {sb.bmapstart + r.value / BPB, r.value}
      ensures LoggedAll(old(blocks), blocks, old(logged), logged)
    {
      hide Bit, WithBit, ByteWithBit, LoggedAll, ZeroBlock, Used, Taken;
      LoggedSame(blocks, logged);
      var b := 0;
      while b < sb.size
        invariant b % BPB == 0 && blocks == old(blocks) && logged == old(logged)
        invariant forall x: nat | x < b && x < sb.size :: Used(sb, blocks, x)
      {
        var bp := blocks[sb.bmapstart + b / BPB];
        var bi := 0;
        while bi < BPB && b + bi < sb.size
          invariant bi <= BPB && blocks == old(blocks) && logged == old(logged)
          invariant forall x: nat | x < b + bi && x < sb.size :: Used(sb, blocks, x)
        {
          BitOfBlock(sb, blocks, b, bi);
          if !Bit(bp[bi / 8], bi % 8) {
            LogWrite(sb.bmapstart + b / BPB, bp[bi / 8 := ByteWithBit(bp[bi / 8], bi % 8, true)]);
            LogWrite(b + bi, ZeroBlock());
            LoggedTaken(sb, old(blocks), old(logged), b + bi);
            return Some(b + bi);
          }
          bi := bi + 1;
        }
        b := b + BPB;
      }
      return None;
    }

    /** Clears the block's bit; panics when it is clear already. */
    method Bfree(b: nat) returns (panic: bool)
      requires sb.Valid() && |blocks| == sb.size && b < sb.size
      modifies `blocks, `logged
      ensures panic == !Used(sb, old(blocks), b)
      ensures panic ==> blocks == old(blocks) && logged == old(logged)
      ensures !panic ==> blocks == Mark(sb, old(blocks), b, false) && logged == old(logged) + {sb.bmapstart + b / BPB}
      ensures LoggedAll(old(blocks), blocks, old(logged), logged)
    {
      hide Bit, WithBit, ByteWithBit;
      var bp := blocks[sb.bmapstart + b / BPB];
      var bi := b % BPB;
      BitPosition(b - bi, bi);
      LoggedSame(blocks, logged);
      if !Bit(bp[bi / 8], bi % 8) {
        return true;
      }
      LogWrite(sb.bmapstart + b / BPB, bp[bi / 8 := ByteWithBit(bp[bi / 8], bi % 8, false)]);
      LoggedSame(old(blocks), old(logged));
      LoggedMark(sb, old(blocks), old(blocks), old(logged), old(logged), b, false);
      return false;
    }

    /** The block number of block `bn` of file `i`, allocating what is missing.  No file's
        contents change, and nothing changes when the block is there. */
    method Bmap(i: nat, bn: nat) returns (r: Option<nat>)
      requires Valid() && i < |inodes|
      modifies this
      ensures Valid() && Mapped(sb, old(blocks), old(inodes), old(owner), blocks, inodes, owner, i, bn)
      ensures r.Some? ==> && bn < MAXFILE && 0 < r.value < |blocks| == sb.size && r.value == Addr(blocks, inodes[i], bn)
      ensures Logs(sb, old(logged), logged, old(owner), owner, i, bn, bn + 1)
      ensures Addr(old(blocks), old(inodes)[i], bn) != 0
              ==> r.Some? && blocks == old(blocks) && inodes == old(inodes) && owner == old(owner)
                  && logged == old(logged)
      ensures Pointer(old(inodes)[i], bn) != 0 ==> inodes == old(inodes)
      ensures r.None? && bn < NDIRECT ==> blocks == old(blocks)
      ensures r.None? && bn < MAXFILE ==> forall x: nat | x < sb.size :: Used(sb, blocks, x)
      ensures LoggedAll(old(blocks), blocks, old(logged), logged)
      ensures forall x | x in owner && x !in old(owner) :: x in logged
    {
      hide Ok, SameBytes, Extends, Logs, Used, Taken, Addr, Word, SetWord, LoggedAll;
      LoggedSame(blocks, logged);
      Found(sb, blocks, inodes, owner, i, bn);
      LogNone(sb, logged, owner, i, bn, bn + 1);
      if bn < NDIRECT {
        var ip := inodes[i];
        if ip.addrs[bn] != 0 {
          return Some(ip.addrs[bn]);
        }
        ghost var d := blocks;
        r := Balloc();
        if r.Some? {
          MapDirect(sb, d, inodes, owner, i, bn, r.value);
          LogTaken(sb, old(logged), owner, r.value, Data(i, bn), i, bn, bn + 1);
          inodes := inodes[i := ip.(addrs := ip.addrs[bn := r.value])];
          owner := owner[r.value := Data(i, bn)];
          Found(sb, blocks, inodes, owner, i, bn);
        }
      } else if bn < MAXFILE {
        r := BmapIndirect(i, bn - NDIRECT);
      } else {
        r := None;
      }
    }

    /** The indirect block of file `i`, allocated if missing, on the way to block `bn`. */
    method LoadIndirect(i: nat, bn: nat) returns (r: Option<nat>)
      requires Valid() && i < |inodes|
      modifies this
      ensures Valid() && Mapped(sb, old(blocks), old(inodes), old(owner), blocks, inodes, owner, i, bn)
      ensures r.Some? ==> |inodes[i].addrs| == NDIRECT + 1 && inodes[i].addrs[NDIRECT] == r.value != 0
      ensures Logs(sb, old(logged), logged, old(owner), owner, i, bn, bn + 1)
      ensures |old(inodes)[i].addrs| == NDIRECT + 1 && old(inodes)[i].addrs[NDIRECT] != 0
              ==> r.Some? && blocks == old(blocks) && inodes == old(inodes) && owner == old(owner)
                  && logged == old(logged)
      ensures r.None? ==> forall x: nat | x < sb.size :: Used(sb, blocks, x)
      ensures LoggedAll(old(blocks), blocks, old(logged), logged)
      ensures forall x | x in owner && x !in old(owner) :: x in logged
      ensures r.Some? && r.value < |blocks|
              && (|old(inodes)[i].addrs| == NDIRECT + 1 ==> old(inodes)[i].addrs[NDIRECT] == 0)
              ==> blocks[r.value] == ZeroBlock()
    {
      hide Ok, SameBytes, Extends, Logs, Used, Taken, Addr, LoggedAll;
      LoggedSame(blocks, logged);
      var ip := inodes[i];
      Found(sb, blocks, inodes, owner, i, bn);
      LogNone(sb, logged, owner, i, bn, bn + 1);
      if ip.addrs[NDIRECT] != 0 {
        return Some(ip.addrs[NDIRECT]);
      }
      ghost var d := blocks;
      r := Balloc();
      if r.Some? {
        MapIndirect(sb, d, inodes, owner, i, bn, r.value);
        TakenZero(sb, d, r.value);
        LogTaken(sb, old(logged), owner, r.value, Indirect(i), i, bn, bn + 1);
        inodes := inodes[i := ip.(addrs := ip.addrs[NDIRECT := r.value])];
        owner := owner[r.value := Indirect(i)];
      }
    }

    /** The case of a block listed in the indirect block. */
    method BmapIndirect(i: nat, j: nat) returns (r: Option<nat>)
      requires Valid() && i < |inodes| && j < NINDIRECT
      modifies this
      ensures Valid() && Mapped(sb, old(blocks), old(inodes), old(owner), blocks, inodes, owner, i, NDIRECT + j)
      ensures r.Some? ==> && 0 < r.value < |blocks| == sb.size && r.value == Addr(blocks, inodes[i], NDIRECT + j)
      ensures Logs(sb, old(logged), logged, old(owner), owner, i, NDIRECT + j, NDIRECT + j + 1)
      ensures Addr(old(blocks), old(inodes)[i], NDIRECT + j) != 0
              ==> r.Some? && blocks == old(blocks) && inodes == old(inodes) && owner == old(owner)
                  && logged == old(logged)
      ensures Pointer(old(inodes)[i], NDIRECT + j) != 0 ==> inodes == old(inodes)
      ensures r.None? ==> forall x: nat | x < sb.size :: Used(sb, blocks, x)
      ensures LoggedAll(old(blocks), blocks, old(logged), logged)
      ensures forall x | x in owner && x !in old(owner) :: x in logged
    {
      hide Ok, SameBytes, Extends, Logs, Used, Taken, Addr, Word, SetWord, LoggedAll;
      Found(sb, blocks, inodes, owner, i, NDIRECT + j);
      r := LoadIndirect(i, NDIRECT + j);
      if r.None? {
        return;
      }
      Found(sb, blocks, inodes, owner, i, NDIRECT + j);
      var addr := r.value;
      ghost var d, owner1, logged1 := blocks, owner, logged;
      var bp := blocks[addr];
      ZeroWord(j);
      if Word(bp, j) != 0 {
        return Some(Word(bp, j));
      }
      r := Balloc();
      LoggedTrans(old(blocks), d, blocks, old(logged), logged1, logged);
      LoggedGrows(d, blocks, logged1, logged);
      ghost var d1, logged2 := blocks, logged;
      if r.Some? {
        MapEntry(sb, d, inodes, owner, i, j, addr, r.value, SetWord(bp, j, r.value));
        LogEntry(sb, old(logged), logged1, old(owner), owner, r.value, i, NDIRECT + j, addr);
        LogWrite(addr, SetWord(bp, j, r.value));
        LoggedStore(old(blocks), d1, old(logged), logged2, addr, blocks[addr]);
        owner := owner[r.value := Data(i, NDIRECT + j)];
        MappedTrans(sb, old(blocks), old(inodes), old(owner), d, inodes, owner1, blocks, inodes, owner, i, NDIRECT + j);
      }
    }

    /** Discards the contents of file `i`: exactly its blocks become free, no free block is freed
        again, and no other file changes. */
    method Itrunc(i: nat) returns (panic: bool)
      requires Valid() && i < |inodes|
      modifies this
      ensures !panic && Valid() && inodes == old(inodes)[i := EMPTY]
      ensures Emptied(old(blocks), old(inodes), blocks, inodes, i)
      ensures forall x :: x in owner <==> x in old(owner) && !OfFile(old(owner)[x], i)
      ensures LoggedAll(old(blocks), blocks, old(logged), logged) && LoggedInodes(sb, old(inodes), inodes, logged)
    {
      hide Ok, Freeing, Emptied, Used, Mark, Addr, LoggedAll, LoggedInodes, InodesFit;
      LoggedSame(blocks, logged);
      ghost var d, inodes0, left := blocks, inodes, owner;
      var ip := inodes[i];
      FreeingStart(sb, d, inodes, owner, i);
      panic := false;
      var k := 0;
      while k < NDIRECT
        invariant !panic && k <= NDIRECT && |ip.addrs| == NDIRECT + 1 && inodes == inodes0[i := ip]
                  && owner == old(owner)
        invariant forall n | 0 <= n < k :: ip.addrs[n] == 0
        invariant forall n | k <= n <= NDIRECT :: ip.addrs[n] == inodes0[i].addrs[n]
        invariant Freeing(sb, d, owner, blocks, left, i, k) && LoggedAll(d, blocks, old(logged), logged)
      {
        ghost var d1, logged1 := blocks, logged;
        FreeNext(sb, d, inodes0, owner, i, blocks, left, k);
        assert Addr(d, inodes0[i], k) == ip.addrs[k];
        if ip.addrs[k] != 0 {
          panic := Bfree(ip.addrs[k]);
          LoggedTrans(d, d1, blocks, old(logged), logged1, logged);
          left := left - {ip.addrs[k]};
          ip := ip.(addrs := ip.addrs[k := 0]);
          inodes := inodes[i := ip];
        }
        k := k + 1;
      }
      if ip.addrs[NDIRECT] != 0 {
        var c := ip.addrs[NDIRECT];
        FreeingIndirect(sb, d, inodes0, owner, i, blocks, left, NDIRECT, c);
        var a := blocks[c];
        var j := 0;
        while j < NINDIRECT
          invariant !panic && j <= NINDIRECT && inodes == inodes0[i := ip] && owner == old(owner)
          invariant Freeing(sb, d, owner, blocks, left, i, NDIRECT + j) && LoggedAll(d, blocks, old(logged), logged)
        {
          ghost var d1, logged1 := blocks, logged;
          FreeNext(sb, d, inodes0, owner, i, blocks, left, NDIRECT + j);
          assert Addr(d, inodes0[i], NDIRECT + j) == Word(a, j);
          if Word(a, j) != 0 {
            panic := Bfree(Word(a, j));
            LoggedTrans(d, d1, blocks, old(logged), logged1, logged);
            left := left - {Word(a, j)};
          }
          j := j + 1;
        }
        FreeIndirect(sb, d, inodes0, owner, i, blocks, left, c);
        ghost var d1, logged1 := blocks, logged;
        panic := Bfree(c);
        LoggedTrans(d, d1, blocks, old(logged), logged1, logged);
        left := left - {c};
        ip := ip.(addrs := ip.addrs[NDIRECT := 0]);
      } else {
        FreeingDirectOnly(sb, d, inodes0, owner, i, blocks, left);
      }
      ip := ip.(size := 0);
      inodes := inodes[i := ip];
      LoggedOne(d, blocks, old(logged), logged, sb.inodestart + i / IPB);
      logged := logged + {sb.inodestart + i / IPB};
      InodeLogged(sb, inodes0, inodes, i, logged);
      owner := left;
      assert forall n | 0 <= n <= NDIRECT :: ip.addrs[n] == 0 == EMPTY.addrs[n];
      assert ip.addrs == EMPTY.addrs && inodes == inodes0[i := EMPTY];
    }

    /** Looks up block `bn` for a read at `off`, which began in the given state, and fetches it. */
    method ReadBlock(i: nat, bn: nat, ghost d0: Disk, ghost inodes0: seq<Inode>, ghost owner0: Owners,
                     ghost was: set<nat>, ghost off: nat)
      returns (r: Option<Block>)
      requires Valid() && i < |inodes| && off / BSIZE <= bn < MAXFILE
      requires InRead(sb, d0, inodes0, owner0, was, blocks, inodes, owner, logged, i, off, bn)
      modifies this
      ensures Valid() && |inodes| == |inodes0|
      ensures r.Some? ==> && InRead(sb, d0, inodes0, owner0, was, blocks, inodes, owner, logged, i, off, bn + 1)
                          && Copied(d0, inodes0[i], bn * BSIZE, r.value)
      ensures r.None? ==> && SameBytes(d0, inodes0, blocks, inodes) && LoggedAll(d0, blocks, was, logged)
                          && (forall k | 0 <= k < |inodes| :: inodes[k].size == inodes0[k].size)
                          && !Present(d0, inodes0[i], off / BSIZE, bn + 1) && (bn < NDIRECT ==> blocks == old(blocks))
                          && forall x: nat | x < sb.size :: Used(sb, blocks, x)
    {
      hide Ok, SameBytes, Mapped, Copied, Logs, Used, Addr, LoggedAll, InodesFit, Wrote, InRead, Present, Pointer;
      ghost var d, inodes1, owner1, logged1 := blocks, inodes, owner, logged;
      var a := Bmap(i, bn);
      InReadBmap(sb, d0, inodes0, owner0, was, d, inodes1, owner1, logged1, blocks, inodes, owner, logged, i, off, bn);
      WroteNothing(sb, d0, inodes0, owner0, blocks, inodes, owner, i, off);
      if a.None? {
        return None;
      }
      BlockBytes(sb, d0, inodes0, owner0, blocks, inodes, owner, i, off, bn);
      return Some(blocks[a.value]);
    }

    /** Copies up to `n` bytes at `off` to a destination whose first `room` bytes can be written.
        `dst` is what arrives there; the call reports the bytes of the copies that succeeded. */
    method Readi(i: nat, off: Word32, n: Word32, room: nat) returns (r: Option<nat>, dst: seq<Byte>)
      requires Valid() && i < |inodes|
      modifies this
      ensures Valid() && |inodes| == |old(inodes)| && SameBytes(old(blocks), old(inodes), blocks, inodes)
      ensures forall k | 0 <= k < |inodes| :: inodes[k].size == old(inodes)[k].size
      ensures LoggedAll(old(blocks), blocks, old(logged), logged)
      ensures r.Some? ==> var len := ReadLength(old(inodes)[i].size, off, n);
                && |dst| == Min(len, room) && r.value == Whole(off, len, room)
                && Copied(old(blocks), old(inodes)[i], off, dst)
      ensures r.Some? ==> Arrived(old(inodes)[i].size, off, n, room, |dst|, r.value)
      ensures var hi := ReadEnd(off, ReadLength(old(inodes)[i].size, off, n), room);
              if r.Some? then
                ReadEffect(sb, old(blocks), old(inodes), old(owner), old(logged), blocks, inodes, owner, logged, i,
                           off / BSIZE, hi)
              else !Present(old(blocks), old(inodes)[i], off / BSIZE, hi)
      ensures r.None? && off / BSIZE < NDIRECT && off % BSIZE + ReadLength(old(inodes)[i].size, off, n) <= BSIZE
              ==> blocks == old(blocks)
      ensures r.None? ==> forall x: nat | x < sb.size :: Used(sb, blocks, x)
    {
      hide Ok, SameBytes, Mapped, Copied, Logs, Used, Addr, Whole, LoggedAll, InodesFit, Wrote, InRead, Present,
           Pointer,
           ReadEffect, Arrived;
      ghost var d0, inodes0, owner0, was := blocks, inodes, owner, logged;
      ArrivedIs(inodes[i].size, off, n, room);
      InReadStart(sb, blocks, inodes, owner, logged, i, off);
      SizeLimit(sb, blocks, inodes, owner, i);
      if off > inodes[i].size || off + n >= 0x1_0000_0000 {
        WholeAll(off, 0, room);
        InReadEnd(sb, d0, inodes0, owner0, was, blocks, inodes, owner, logged, i, off, off / BSIZE);
        return Some(0), [];
      }
      var len := if off + n > inodes[i].size then inodes[i].size - off else n;
      assert len == ReadLength(inodes[i].size, off, n);
      var tot, o: nat := 0, off;
      dst := [];
      ghost var hi := off / BSIZE;
      assert Aligned(off, 0, len) && (len == 0 ==> ReadEnd(off, len, room) == hi);
      hide Aligned, ReadLength, ReadEnd, Part, Min, Slice;
      while tot < len
        invariant tot <= len && tot <= room && o == off + tot && Aligned(off, tot, len)
        invariant Valid() && |inodes| == |inodes0| && hi == if tot < len then o / BSIZE else ReadEnd(off, len, room)
        invariant InRead(sb, d0, inodes0, owner0, was, blocks, inodes, owner, logged, i, off, hi)
        invariant |dst| == tot && Copied(d0, inodes0[i], off, dst) && (tot == 0 ==> blocks == d0)
      {
        Trip(off, tot, len, room);
        BlockRange(off, tot, len);
        var bp := ReadBlock(i, o / BSIZE, d0, inodes0, owner0, was, off);
        if bp.None? {
          InOneBlock(off, tot, len);
          PresentPart(d0, inodes0[i], off / BSIZE, hi + 1, ReadEnd(off, len, room));
          return None, dst;
        }
        var q, m := o % BSIZE, Part(off, tot, len);
        var c := if room - tot < m then room - tot else m;
        CopyMore(d0, inodes0[i], off, dst, bp.value, c);
        dst := dst + Slice(bp.value, q, c);
        if c < m {
          InReadEnd(sb, d0, inodes0, owner0, was, blocks, inodes, owner, logged, i, off, hi + 1);
          return Some(tot), dst;
        }
        tot, o, hi := tot + m, o + m, hi + 1;
      }
      WholeAll(off, len, room);
      InReadEnd(sb, d0, inodes0, owner0, was, blocks, inodes, owner, logged, i, off, hi);
      r := Some(tot);
    }

    /** Reads a file at its offset.  None is a panic: balloc's, or that of log_write outside of an operation,
        which the call does not begin; `outstanding` is the number of operations of others. */
    method FileRead(i: nat, off: Word32, n: Word32, room: nat, outstanding: nat)
      returns (r: Option<nat>, dst: seq<Byte>, off': Word32)
      requires Valid() && i < |inodes|
      modifies this
      ensures var len := ReadLength(old(inodes)[i].size, off, n);
              && (outstanding == 0 ==>
                    (r.Some? <==> Present(old(blocks), old(inodes)[i], off / BSIZE, ReadEnd(off, len, room))))
              && (r.Some? ==>
                    && Valid() && SameBytes(old(blocks), old(inodes), blocks, inodes) && |dst| == Min(len, room)
                    && r.value == Whole(off, len, room) && off' == off + r.value
                    && Copied(old(blocks), old(inodes)[i], off, dst))
      ensures r.Some? ==> Arrived(old(inodes)[i].size, off, n, room, |dst|, r.value)
      ensures r.Some? && outstanding == 0 ==> blocks == old(blocks) && inodes == old(inodes) && owner == old(owner)
    {
      hide Arrived, Ok, SameBytes, Copied, Used, Addr, Whole, LoggedAll, LoggedInodes, InodesFit, Pointed, ReadEnd,
           ReadLength;
      SizeLimit(sb, blocks, inodes, owner, i);
      CountedIff(off, ReadLength(inodes[i].size, off, n), room);
      LengthBound(inodes[i].size, off, n);
      logged := {};
      off' := off;
      r, dst := Readi(i, off, n, room);
      if r.None? || (outstanding < 1 && logged != {}) {
        return None, [], off';
      }
      off' := off + r.value;
    }

    /** The end of writei: a file that has grown gets its new size, and its inode is written. */
    method Resize(i: nat, o: nat)
      requires i < |inodes|
      modifies `inodes, `logged
      ensures inodes == old(inodes)[i := old(inodes)[i].(size := Max(old(inodes)[i].size, o))]
      ensures logged == old(logged) + {sb.inodestart + i / IPB}
    {
      if o > inodes[i].size {
        inodes := inodes[i := inodes[i].(size := o)];
      }
      logged := logged + {sb.inodestart + i / IPB};
    }

    /** Copies `src`, of which the first `readable` bytes can be read, into file `i` at `off`.
        None is balloc's panic.  What it changed it has logged, exactly if no block is torn. */
    method Writei(i: nat, off: Word32, src: seq<Byte>, readable: nat) returns (r: Option<int>)
      requires Valid() && i < |inodes| && |src| < 0x1_0000_0000
      modifies this
      ensures Valid()
      ensures r == Some(-1)
              <==> off > old(inodes)[i].size || off + |src| >= 0x1_0000_0000 || off + |src| > 268 * 1024
      ensures r == Some(-1) ==> blocks == old(blocks) && inodes == old(inodes) && owner == old(owner)
                                && logged == old(logged)
      ensures r.Some? && r != Some(-1) ==>
                && r.value == |src| && (r.value == Whole(off, |src|, readable) <==> |src| <= readable)
                && Written(old(blocks), old(inodes), blocks, inodes, i, off, src, readable)
                && WriteLogs(sb, old(logged), logged, old(owner), owner, i, off, |src|)
      ensures r.Some? && r != Some(-1) ==>
                && (LoggedAll(old(blocks), blocks, old(logged), logged)
                    <==> !Torn(old(blocks), old(inodes)[i], old(logged), off, src, readable))
                && LoggedInodes(sb, old(inodes), inodes, logged)
      ensures r.None? ==> forall x: nat | x < sb.size :: Used(sb, blocks, x)
      ensures r.None? ==> exists bn: nat ::
                bn * BSIZE < off + |src| && off / BSIZE <= bn && Addr(old(blocks), old(inodes)[i], bn) == 0
    {
      hide Ok, SameBytes, Spliced, NoHoles, Extends, Logs, WriteLogs, Written, Used, Addr, ByteAt, Whole, Patch,
           Reaches, LoggedAll,
           Torn, Mapped, NewLogged, LoggedInodes, Wrote, InWrite, InodesFit, Bmapped, AtEnd;
      ghost var d0, inodes0, owner0, was := blocks, inodes, owner, logged;
      var n := |src|;
      if off > inodes[i].size || off + n >= 0x1_0000_0000 || off + n > MAXFILE * BSIZE {
        return Some(-1);
      }
      ghost var hi := (off + n + BSIZE - 1) / BSIZE;
      ghost var x: nat := sb.inodestart + i / IPB;
      Found(sb, blocks, inodes, owner, i, 0);
      InodeBelow(sb, |inodes|, i);
      CountedIff(off, n, readable);
      InWriteStart(sb, blocks, inodes, owner, logged, i, off, hi, 0 < n);
      var tot, o: nat := 0, off;
      ghost var s: seq<Byte> := [];
      assert Aligned(off, 0, n);
      hide Aligned, Part, Min, ReadEnd;
      while tot < n
        invariant tot <= n && tot <= readable && o == off + tot && Aligned(off, tot, n) && s == src[..tot]
        invariant Valid() && |inodes| == |inodes0| && (tot == 0 ==> inodes == inodes0 && logged == was)
        invariant InWrite(sb, d0, inodes0, owner0, was, blocks, inodes, owner, logged, i, off, s, o, hi, tot < n)
      {
        ghost var d, inodes1, owner1, logged1 := blocks, inodes, owner, logged;
        Trip(off, tot, n, readable);
        BlockRange(off, tot, n);
        r := Bmap(i, o / BSIZE);
        if r.None? {
          InWriteHole(sb, d0, inodes0, owner0, was, d, inodes1, owner1, logged1, i, off, s, o, hi, true);
          return;
        }
        MappedSize(sb, d, inodes1, owner1, blocks, inodes, owner, i, o / BSIZE);
        IsBmapped(sb, d, inodes1, owner1, logged1, blocks, inodes, owner, logged, i, o / BSIZE, r.value);
        var m := Part(off, tot, n);
        var a, bp := r.value, blocks[r.value];
        if readable - tot < m {
          InWritePart(sb, d0, inodes0, owner0, was, d, inodes1, owner1, logged1, blocks, inodes, owner, logged, i, off,
                      src, tot, hi, a, readable, x);
          blocks := blocks[a := Patch(bp, o % BSIZE, src[tot..readable])];
          s := src[..readable];
          break;
        }
        InWriteFull(sb, d0, inodes0, owner0, was, d, inodes1, owner1, logged1, blocks, inodes, owner, logged, i, off,
                    src, tot, hi, a, m, tot + m < n);
        LogWrite(a, Patch(bp, o % BSIZE, src[tot..tot + m]));
        InWriteOk(sb, d0, inodes0, owner0, was, blocks, inodes, owner, logged, i, off, src[..tot + m], o + m, hi,
                  tot + m < n);
        s, tot, o := src[..tot + m], tot + m, o + m;
      }
      if n <= readable {
        assert s == src;
        InWriteEnd(sb, d0, inodes0, owner0, was, blocks, inodes, owner, logged, i, off, src, o, hi, tot < n, readable,
                   x);
      }
      EndOfWrite(sb, d0, inodes0, owner0, was, blocks, inodes, owner, logged, i, off, src, readable, s, o, x,
                 inodes[i := inodes[i].(size := Max(inodes[i].size, o))]);
      if n > 0 {
        Resize(i, o);
      } else {
        assert inodes == inodes[i := inodes[i].(size := Max(inodes[i].size, o))];
        NoInodeChanged(sb, inodes, logged);
      }
      r := Some(n);
    }

    /** Writes `src` at `off`, a few blocks per operation of the log: `ops` are these operations. */
    method FileWrite(i: nat, off: Word32, src: seq<Byte>, readable: nat)
      returns (ret: Option<int>, off': Word32, ghost ops: seq<Op>)
      requires Valid() && i < |inodes| && |src| < 0x8000_0000
      modifies this
      ensures Valid()
      ensures NoHoles(old(blocks), old(inodes)[i]) ==> OpsLog(ops, MAXOPBLOCKS)
      ensures sb.size <= BPB ==> OpsLog(ops, 7)
      ensures OpsOk(sb, ops, i, off, src, readable)
      ensures ret.Some? && |src| <= readable ==>
                var done := Accepted(old(inodes)[i].size, off, |src|);
                && off' == off + done && ret.value == (if done == |src| then |src| else -1)
                && FileWrote(old(blocks), old(inodes), blocks, inodes, i, off, src[..done])
      ensures ret.Some? ==>
                var c := Chunks(old(inodes)[i].size, off, |src|, readable, 0);
                && c.0 <= |src| && off' == off + c.0 && ret.value == (if c.0 == |src| then |src| else -1)
                && i < |inodes| && inodes[i].size == c.1
                && FileHolds(old(blocks), old(inodes), blocks, inodes, i, off, src, readable, c.0)
                && Follows(ops, old(blocks), old(inodes), blocks, inodes, c.0)
      ensures ret.Some? && off' < off + |src| ==>
                off' >= off && i < |inodes| && Stopped(inodes[i].size, off', off' - off, |src|)
      ensures ret.None? ==> forall x: nat | x < sb.size :: Used(sb, blocks, x)
    {
      hide Ok, Spliced, NoHoles, Logs, FileWrote, FileHolds, Used, Addr, ByteAt, Whole, Accepted, AtChunk, Min,
           LoggedAll, LoggedInodes,
           InodesFit, Written, Chunks, Torn, Follows, OpsOk, OpsLog, OpOk, Stopped;
      ghost var d0, inodes0 := blocks, inodes;
      SizeLimit(sb, blocks, inodes, owner, i);
      var n, k := |src|, 0;
      off', ops := off, [];
      OpsNone(sb, blocks, inodes, i, off, src, readable);
      FileWroteNothing(blocks, inodes, i, off);
      FileHoldsNothing(blocks, inodes, i, off, src, readable);
      assert AtChunk(0, n) by { AtStart(n); }
      while k < n
        invariant Valid() && |inodes| == |inodes0| && k <= n && off' == off + k && AtChunk(k, n)
        invariant if k == 0 then inodes == inodes0 else off <= inodes0[i].size && off + k <= MAXFILE * BSIZE
        invariant NoHoles(d0, inodes0[i]) ==> NoHoles(blocks, inodes[i]) && OpsLog(ops, MAXOPBLOCKS)
        invariant sb.size <= BPB ==> OpsLog(ops, 7)
        invariant OpsOk(sb, ops, i, off, src, readable) && Follows(ops, d0, inodes0, blocks, inodes, k)
        invariant n <= readable ==> FileWrote(d0, inodes0, blocks, inodes, i, off, src[..k])
        invariant FileHolds(d0, inodes0, blocks, inodes, i, off, src, readable, k)
        invariant Chunks(inodes0[i].size, off, n, readable, 0) == Chunks(inodes[i].size, off, n, readable, k)
      {
        var n1 := Min(n - k, CHUNK);
        NextChunk(k, n);
        ChunksStep(inodes[i].size, off, n, readable, k);
        logged := {};
        ghost var d, inodes1, owner1 := blocks, inodes, owner;
        var r := Writei(i, off', src[k..k + n1], Left(readable, k));
        if r.None? {
          return None, off', ops;
        }
        if r.value < 0 {
          if n <= readable {
            FileWroteSize(d0, inodes0, blocks, inodes, i, off, src[..k]);
            AcceptedPart(inodes0[i].size, off, n, k, inodes[i].size);
          }
          StoppedHere(inodes[i].size, off', k, n);
          return Some(-1), off', ops;
        }
        assert r.value == n1;
        WrittenSize(d, inodes1, blocks, inodes, i, off', src[k..k + n1], Left(readable, k));
        assert {} + {sb.inodestart + i / IPB} == {sb.inodestart + i / IPB};
        ChunkBound(sb, d, inodes1, owner1, blocks, inodes, owner, logged, i, off', n1, sb.inodestart + i / IPB);
        ghost var op := Op(k, n1, d, inodes1, blocks, inodes, logged);
        OpIsOk(sb, op, i, off, src, readable);
        OpsMore(sb, ops, op, d0, inodes0, i, off, src, readable);
        ops := ops + [op];
        FileHoldsMore(d0, inodes0, d, inodes1, blocks, inodes, i, off, src, readable, k, n1);
        if n <= readable {
          FileWroteMore(d0, inodes0, d, inodes1, blocks, inodes, i, off, src, k, n1, readable - k);
        }
        k, off' := k + n1, off' + n1;
      }
      AcceptedAll(inodes0[i].size, off, n);
      ChunksEnd(inodes[i].size, off, n, readable);
      ret := Some(n);
    }
  }
}
