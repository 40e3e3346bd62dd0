/** Inodes, their block maps and their contents (kernel/fs.c), over the blocks as reads
    through the log see them.

    `Owner` names the one use of every block in use.  The invariant ties it to the bitmap
    and to the block maps in both directions, so blocks are neither lost nor shared. */
module Inodes {
  import opened Prelude
  import opened Blocks
  import opened Bitmap

  const NDIRECT := 12
  const NINDIRECT := 256
  const MAXFILE := 268

  /** The in-memory copy of an inode: its size and NDIRECT + 1 block numbers. */
  datatype Inode = Inode(size: nat, addrs: seq<nat>)

  datatype Owner = Meta | Indirect(inum: nat) | Data(inum: nat, bn: nat)

  type Owners = map<nat, Owner>

  /** The block number bmap finds for block `bn` of the file, 0 when there is none. */
  function Addr(d: Disk, ip: Inode, bn: nat): (a: nat) {
    if |ip.addrs| != NDIRECT + 1 || bn >= MAXFILE then 0
    else if bn < NDIRECT then ip.addrs[bn]
    else if ip.addrs[NDIRECT] == 0 || ip.addrs[NDIRECT] >= |d| then 0
    else Word(d[ip.addrs[NDIRECT]], bn - NDIRECT)
  }

  ghost predicate InodeOk(sb: Super, d: Disk, owner: Owners, i: nat, ip: Inode) {
    && |ip.addrs| == NDIRECT + 1 && ip.addrs[NDIRECT] < |d| && ip.size <= MAXFILE * BSIZE
    && (ip.addrs[NDIRECT] != 0 ==> ip.addrs[NDIRECT] in owner && owner[ip.addrs[NDIRECT]] == Indirect(i))
    && forall bn: nat | bn < MAXFILE && Addr(d, ip, bn) != 0 ::
         Addr(d, ip, bn) in owner && owner[Addr(d, ip, bn)] == Data(i, bn)
  }

  /** The use recorded for block `b` is a real one. */
  ghost predicate OwnerOk(sb: Super, d: Disk, inodes: seq<Inode>, b: nat, o: Owner) {
    && b < sb.size && (o.Meta? <==> b < sb.datastart)
    && (o.Indirect? ==> o.inum < |inodes| && |inodes[o.inum].addrs| == NDIRECT + 1
                        && inodes[o.inum].addrs[NDIRECT] == b)
    && (o.Data? ==> o.inum < |inodes| && o.bn < MAXFILE && Addr(d, inodes[o.inum], o.bn) == b)
  }

  ghost predicate BitsOk(sb: Super, d: Disk, owner: Owners)
    requires sb.Valid() && |d| == sb.size
  {
    forall b: nat | b < sb.size :: Used(sb, d, b) <==> b in owner
  }

  ghost predicate Ok(sb: Super, d: Disk, inodes: seq<Inode>, owner: Owners) {
    && sb.Valid() && |d| == sb.size
    && BitsOk(sb, d, owner)
    && (forall b: nat | b < sb.datastart :: b in owner)
    && (forall b | b in owner :: OwnerOk(sb, d, inodes, b, owner[b]))
    && (forall i | 0 <= i < |inodes| :: InodeOk(sb, d, owner, i, inodes[i]))
  }

  /** The byte at offset `off` of the file's blocks; a missing block reads as zeroes. */
  function ByteAt(d: Disk, ip: Inode, off: nat): (x: Byte) {
    var a := Addr(d, ip, off / BSIZE);
    if a == 0 || a >= |d| then 0 else d[a][off % BSIZE]
  }

  /** Where the byte is on the disk: the first 12 block numbers are in the inode, 256 more in the block
      whose number is the last one there. */
  lemma ByteAtIs(sb: Super, d: Disk, inodes: seq<Inode>, owner: Owners, i: nat, off: nat)
    requires Ok(sb, d, inodes, owner) && i < |inodes| && off < 268 * 1024
    ensures var addrs, bn := inodes[i].addrs, off / 1024;
            && |addrs| == 13 && addrs[12] < |d|
            && (bn < 12 ==>
                  addrs[bn] < |d| && ByteAt(d, inodes[i], off) == if addrs[bn] == 0 then 0
                                                                  else d[addrs[bn]][off % 1024])
            && (12 <= bn && addrs[12] == 0 ==> ByteAt(d, inodes[i], off) == 0)
            && (12 <= bn && addrs[12] != 0 ==>
                  var a := LittleEndian(d[addrs[12]][4 * (bn - 12)..4 * (bn - 12) + 4]);
                  0 <= a < |d| && ByteAt(d, inodes[i], off) == if a == 0 then 0 else d[a][off % 1024])
  {
    var ip, bn := inodes[i], off / BSIZE;
    assert InodeOk(sb, d, owner, i, ip);
    hide InodeOk, Used, Word, LittleEndian;
    AddrBelow(sb, d, inodes, owner, i, bn);
    if bn >= NDIRECT && ip.addrs[NDIRECT] != 0 {
      WordIsLittleEndian(d[ip.addrs[NDIRECT]], bn - NDIRECT);
    }
  }

  lemma AddrBelow(sb: Super, d: Disk, inodes: seq<Inode>, owner: Owners, i: nat, bn: nat)
    requires Ok(sb, d, inodes, owner) && i < |inodes| && bn < MAXFILE
    ensures |inodes[i].addrs| == NDIRECT + 1 && inodes[i].addrs[NDIRECT] < |d| && Addr(d, inodes[i], bn) < |d|
  {
    hide Addr, Used;
    assert InodeOk(sb, d, owner, i, inodes[i]);
  }

  // ---------- allocation ----------

  /** The disk after balloc has taken block `b`. */
  function Taken(sb: Super, d: Disk, b: nat): (r: Disk)
    requires sb.Valid() && |d| == sb.size && b < sb.size
    ensures |r| == |d|
  {
    Mark(sb, d, b, true)[b := ZeroBlock()]
  }

  /** A free block is no inode's, and no metadata. */
  lemma FreeBlock(sb: Super, d: Disk, inodes: seq<Inode>, owner: Owners, b: nat, o: Owner)
    requires Ok(sb, d, inodes, owner) && b < sb.size && !Used(sb, d, b)
    ensures b !in owner && b >= sb.datastart
    ensures forall x | x in owner && x >= sb.datastart :: Taken(sb, d, b)[x] == d[x]
    ensures BitsOk(sb, Taken(sb, d, b), owner[b := o]) && Taken(sb, d, b)[b] == ZeroBlock()
  {
    var e := Mark(sb, d, b, true);
    assert b !in owner;
    assert sb.bmapstart + b / BPB < sb.datastart;
    forall x: nat | x < sb.size ensures Used(sb, e[b := ZeroBlock()], x) == Used(sb, e, x) {
      assert sb.bmapstart + x / BPB < sb.datastart;
    }
  }

  /** The contents of every inode are the same. */
  ghost predicate SameBytes(d: Disk, inodes: seq<Inode>, d': Disk, inodes': seq<Inode>) {
    |inodes'| == |inodes| && forall i, off: nat | 0 <= i < |inodes| && off < MAXFILE * BSIZE ::
      ByteAt(d', inodes'[i], off) == ByteAt(d, inodes[i], off)
  }

  /** Every block number bmap would find, except that of block `bn` of inode `i`, is as it was. */
  ghost predicate SameAddrs(d: Disk, inodes: seq<Inode>, d': Disk, inodes': seq<Inode>, i: nat, bn: nat) {
    |inodes'| == |inodes| && forall k, n: nat | 0 <= k < |inodes| && n < MAXFILE && (k != i || n != bn) ::
      Addr(d', inodes'[k], n) == Addr(d, inodes[k], n)
  }

  lemma AttachInode(sb: Super, d: Disk, owner: Owners, d': Disk, k: nat, ip: Inode, ip': Inode, i: nat, bn: nat, b: nat)
    requires InodeOk(sb, d, owner, k, ip) && b !in owner && |d'| == |d| && bn < MAXFILE
    requires |ip'.addrs| == NDIRECT + 1 && ip'.size == ip.size && ip'.addrs[NDIRECT] == ip.addrs[NDIRECT]
    requires k == i ==> Addr(d', ip', bn) == b
    requires forall n: nat | n < MAXFILE && (k != i || n != bn) :: Addr(d', ip', n) == Addr(d, ip, n)
    ensures InodeOk(sb, d', owner[b := Data(i, bn)], k, ip')
  {
    forall n: nat | n < MAXFILE && Addr(d', ip', n) != 0
      ensures Addr(d', ip', n) in owner[b := Data(i, bn)] && owner[b := Data(i, bn)][Addr(d', ip', n)] == Data(k, n)
    {
      assert k != i || n != bn ==> Addr(d', ip', n) == Addr(d, ip, n);
    }
  }

  lemma AttachBytes(sb: Super, d: Disk, owner: Owners, d': Disk, k: nat, ip: Inode, ip': Inode, i: nat, bn: nat, b: nat,
                    off: nat)
    requires InodeOk(sb, d, owner, k, ip) && |d'| == |d| && bn < MAXFILE && off < MAXFILE * BSIZE && b < |d|
    requires |ip'.addrs| == NDIRECT + 1 && ip'.addrs[NDIRECT] == ip.addrs[NDIRECT]
    requires d'[b] == ZeroBlock() && forall x | x in owner && owner[x].Data? && x < |d| :: d'[x] == d[x]
    requires k == i ==> Addr(d, ip, bn) == 0 && Addr(d', ip', bn) == b
    requires forall n: nat | n < MAXFILE && (k != i || n != bn) :: Addr(d', ip', n) == Addr(d, ip, n)
    ensures ByteAt(d', ip', off) == ByteAt(d, ip, off)
  {
    var n := off / BSIZE;
    assert k != i || n != bn ==> Addr(d', ip', n) == Addr(d, ip, n);
  }

  lemma AttachOwner(sb: Super, d: Disk, inodes: seq<Inode>, d': Disk, inodes': seq<Inode>, i: nat, bn: nat, x: nat,
                    o: Owner)
    requires OwnerOk(sb, d, inodes, x, o) && |d'| == |d| && SameAddrs(d, inodes, d', inodes', i, bn)
    requires i < |inodes| && |inodes[i].addrs| == |inodes'[i].addrs| == NDIRECT + 1 && bn < MAXFILE
    requires inodes[i].addrs[NDIRECT] == inodes'[i].addrs[NDIRECT] < |d| && Addr(d, inodes[i], bn) == 0
    requires forall k | 0 <= k < |inodes| && k != i :: inodes'[k] == inodes[k]
    requires x != 0 || o.Meta?
    ensures OwnerOk(sb, d', inodes', x, o)
  {
    if o.Data? {
      assert Addr(d', inodes'[o.inum], o.bn) == Addr(d, inodes[o.inum], o.bn);
    }
  }

  /** Giving a free block to a file that had none there keeps the invariant and all bytes. */
  lemma Attach(sb: Super, d: Disk, inodes: seq<Inode>, owner: Owners, d': Disk, ip: Inode, i: nat, bn: nat, b: nat)
    requires Ok(sb, d, inodes, owner) && i < |inodes| && bn < MAXFILE && sb.datastart <= b < sb.size && b !in owner
    requires |d'| == |d| && BitsOk(sb, d', owner[b := Data(i, bn)])
    requires forall x | x in owner && owner[x].Data? :: d'[x] == d[x]
    requires d'[b] == ZeroBlock()
    requires |ip.addrs| == NDIRECT + 1 && ip.size == inodes[i].size
             && ip.addrs[NDIRECT] == inodes[i].addrs[NDIRECT] < |d|
    requires Addr(d, inodes[i], bn) == 0 && Addr(d', ip, bn) == b
    requires SameAddrs(d, inodes, d', inodes[i := ip], i, bn)
    ensures Ok(sb, d', inodes[i := ip], owner[b := Data(i, bn)])
    ensures SameBytes(d, inodes, d', inodes[i := ip])
  {
    var inodes', owner' := inodes[i := ip], owner[b := Data(i, bn)];
    forall k | 0 <= k < |inodes| ensures InodeOk(sb, d', owner', k, inodes'[k]) {
      AttachInode(sb, d, owner, d', k, inodes[k], inodes'[k], i, bn, b);
    }
    forall x | x in owner' ensures OwnerOk(sb, d', inodes', x, owner'[x]) {
      if x != b {
        AttachOwner(sb, d, inodes, d', inodes', i, bn, x, owner[x]);
      }
    }
    forall k, off: nat | 0 <= k < |inodes| && off < MAXFILE * BSIZE
      ensures ByteAt(d', inodes'[k], off) == ByteAt(d, inodes[k], off)
    {
      AttachBytes(sb, d, owner, d', k, inodes[k], inodes'[k], i, bn, b, off);
    }
  }

  lemma AttachDirect(sb: Super, d: Disk, inodes: seq<Inode>, owner: Owners, i: nat, bn: nat, b: nat)
    requires Ok(sb, d, inodes, owner) && i < |inodes| && bn < NDIRECT && b < sb.size && !Used(sb, d, b)
    requires |inodes[i].addrs| == NDIRECT + 1 && inodes[i].addrs[bn] == 0
    ensures var ip := inodes[i].(addrs := inodes[i].addrs[bn := b]);
            && Ok(sb, Taken(sb, d, b), inodes[i := ip], owner[b := Data(i, bn)])
            && SameBytes(d, inodes, Taken(sb, d, b), inodes[i := ip])
  {
    FreeBlock(sb, d, inodes, owner, b, Data(i, bn));
    var ip, e := inodes[i].(addrs := inodes[i].addrs[bn := b]), Taken(sb, d, b);
    forall k, n: nat | 0 <= k < |inodes| && n < MAXFILE && (k != i || n != bn)
      ensures Addr(e, inodes[i := ip][k], n) == Addr(d, inodes[k], n)
    {
      assert InodeOk(sb, d, owner, k, inodes[k]);
    }
    Attach(sb, d, inodes, owner, e, ip, i, bn, b);
  }

  /** Only the indirect block of inode `i` changed, and there only entry `j`. */
  lemma EntryAddrs(sb: Super, d: Disk, inodes: seq<Inode>, owner: Owners, e: Disk, i: nat, j: nat, a: nat, b: nat)
    requires Ok(sb, d, inodes, owner) && i < |inodes| && j < NINDIRECT && a < |d| == |e| && a != 0
    requires |inodes[i].addrs| == NDIRECT + 1 && inodes[i].addrs[NDIRECT] == a
    requires forall x | x in owner && x >= sb.datastart && x != a :: e[x] == d[x]
    requires Word(e[a], j) == b && forall n: nat | n < NINDIRECT && n != j :: Word(e[a], n) == Word(d[a], n)
    ensures SameAddrs(d, inodes, e, inodes, i, NDIRECT + j) && Addr(e, inodes[i], NDIRECT + j) == b
  {
    assert InodeOk(sb, d, owner, i, inodes[i]);
    forall k, n: nat | 0 <= k < |inodes| && n < MAXFILE && (k != i || n != NDIRECT + j)
      ensures |inodes[k].addrs| == NDIRECT + 1 && inodes[k].addrs[NDIRECT] < |d|
      ensures Addr(e, inodes[k], n) == Addr(d, inodes[k], n)
    {
      assert InodeOk(sb, d, owner, k, inodes[k]);
      var c := inodes[k].addrs[NDIRECT];
      if c != 0 {
        assert OwnerOk(sb, d, inodes, c, owner[c]);
      }
    }
  }

  lemma EntryBits(sb: Super, d: Disk, owner: Owners, a: nat, blk: Block)
    requires sb.Valid() && |d| == sb.size && BitsOk(sb, d, owner) && sb.datastart <= a < sb.size
    ensures BitsOk(sb, d[a := blk], owner)
  {
    forall x: nat | x < sb.size ensures Used(sb, d[a := blk], x) == Used(sb, d, x) {
      assert sb.bmapstart + x / BPB < sb.datastart <= a;
    }
  }

  lemma AttachEntry(sb: Super, d: Disk, inodes: seq<Inode>, owner: Owners, i: nat, j: nat, a: nat, b: nat, blk: Block)
    requires Ok(sb, d, inodes, owner) && i < |inodes| && j < NINDIRECT && b < sb.size && !Used(sb, d, b)
    requires |inodes[i].addrs| == NDIRECT + 1 && inodes[i].addrs[NDIRECT] == a < |d| && a != 0 && Word(d[a], j) == 0
    requires Word(blk, j) == b && forall n: nat | n < NINDIRECT && n != j :: Word(blk, n) == Word(d[a], n)
    ensures var e := Taken(sb, d, b)[a := blk];
            && Ok(sb, e, inodes, owner[b := Data(i, NDIRECT + j)])
            && SameBytes(d, inodes, e, inodes)
  {
    hide Word, Used, ByteAt, Mark, SameAddrs, SameBytes;
    FreeBlock(sb, d, inodes, owner, b, Data(i, NDIRECT + j));
    assert InodeOk(sb, d, owner, i, inodes[i]);
    assert OwnerOk(sb, d, inodes, a, owner[a]);
    var e := Taken(sb, d, b)[a := blk];
    EntryBits(sb, Taken(sb, d, b), owner[b := Data(i, NDIRECT + j)], a, blk);
    EntryAddrs(sb, d, inodes, owner, e, i, j, a, b);
    assert inodes[i := inodes[i]] == inodes;
    Attach(sb, d, inodes, owner, e, inodes[i], i, NDIRECT + j, b);
  }

  /** A new indirect block is zeroed: it lists nothing yet. */
  lemma IndirectInode(sb: Super, d: Disk, owner: Owners, e: Disk, k: nat, ip: Inode, ip': Inode, i: nat, b: nat)
    requires InodeOk(sb, d, owner, k, ip) && b !in owner && b != 0 && b < |d| == |e| && sb.Valid()
    requires e[b] == ZeroBlock() && forall x | x in owner && x >= sb.datastart && x < |d| :: e[x] == d[x]
    requires forall x | x in owner && x < |d| && !owner[x].Meta? :: x >= sb.datastart
    requires if k == i then ip.addrs[NDIRECT] == 0 && ip' == ip.(addrs := ip.addrs[NDIRECT := b]) else ip' == ip
    ensures InodeOk(sb, e, owner[b := Indirect(i)], k, ip')
    ensures forall n: nat | n < MAXFILE :: Addr(e, ip', n) == Addr(d, ip, n)
  {
    forall n: nat | n < MAXFILE ensures Addr(e, ip', n) == Addr(d, ip, n) {
      if k == i && n >= NDIRECT {
        ZeroWord(n - NDIRECT);
      }
    }
  }

  lemma AttachIndirect(sb: Super, d: Disk, inodes: seq<Inode>, owner: Owners, i: nat, b: nat)
    requires Ok(sb, d, inodes, owner) && i < |inodes| && b < sb.size && !Used(sb, d, b)
    requires |inodes[i].addrs| == NDIRECT + 1 && inodes[i].addrs[NDIRECT] == 0
    ensures var ip := inodes[i].(addrs := inodes[i].addrs[NDIRECT := b]);
            && Ok(sb, Taken(sb, d, b), inodes[i := ip], owner[b := Indirect(i)])
            && SameBytes(d, inodes, Taken(sb, d, b), inodes[i := ip])
  {
    FreeBlock(sb, d, inodes, owner, b, Indirect(i));
    var e, owner' := Taken(sb, d, b), owner[b := Indirect(i)];
    var inodes' := inodes[i := inodes[i].(addrs := inodes[i].addrs[NDIRECT := b])];
    forall x | x in owner && !owner[x].Meta? ensures sb.datastart <= x < sb.size {
      assert OwnerOk(sb, d, inodes, x, owner[x]);
    }
    forall k | 0 <= k < |inodes|
      ensures InodeOk(sb, e, owner', k, inodes'[k])
      ensures forall n: nat | n < MAXFILE :: Addr(e, inodes'[k], n) == Addr(d, inodes[k], n)
    {
      IndirectInode(sb, d, owner, e, k, inodes[k], inodes'[k], i, b);
    }
    forall x | x in owner' ensures OwnerOk(sb, e, inodes', x, owner'[x]) {
      if x != b {
        assert OwnerOk(sb, d, inodes, x, owner[x]);
      }
    }
    forall k, off: nat | 0 <= k < |inodes| && off < MAXFILE * BSIZE
      ensures ByteAt(e, inodes'[k], off) == ByteAt(d, inodes[k], off)
    {
      assert InodeOk(sb, d, owner, k, inodes[k]);
      assert Addr(e, inodes'[k], off / BSIZE) == Addr(d, inodes[k], off / BSIZE);
    }
  }

  // ---------- contents ----------

  /** The bytes of `s` are at offset `off` of file `i`; every other byte of every file is as it was. */
  ghost predicate Spliced(d: Disk, inodes: seq<Inode>, d': Disk, inodes': seq<Inode>, i: nat, off: nat, s: seq<Byte>) {
    |inodes'| == |inodes| && forall k, x: nat | 0 <= k < |inodes| && x < MAXFILE * BSIZE ::
      ByteAt(d', inodes'[k], x) == if k == i && off <= x < off + |s| then s[x - off] else ByteAt(d, inodes[k], x)
  }

  /** A block with `s` copied in at `o`. */
  function Patch(blk: Block, o: nat, s: seq<Byte>): (r: Block)
    requires o + |s| <= BSIZE
    ensures forall x | 0 <= x < BSIZE :: r[x] == if o <= x < o + |s| then s[x - o] else blk[x]
  {
    blk[..o] + s + blk[o + |s|..]
  }

  /** Storing into block `bn` of one file changes those bytes and no other byte of any file. */
  lemma StoreBlock(sb: Super, d: Disk, inodes: seq<Inode>, owner: Owners, i: nat, bn: nat, a: nat, o: nat, s: seq<Byte>,
                   blk: Block)
    requires Ok(sb, d, inodes, owner) && i < |inodes| && bn < MAXFILE && 0 < a < |d| && o + |s| <= BSIZE
    requires InodeOk(sb, d, owner, i, inodes[i]) && Addr(d, inodes[i], bn) == a && blk == Patch(d[a], o, s)
    ensures Ok(sb, d[a := blk], inodes, owner)
    ensures Spliced(d, inodes, d[a := blk], inodes, i, bn * BSIZE + o, s)
  {
    assert OwnerOk(sb, d, inodes, a, owner[a]);
    hide Addr, ByteAt, Used;
    var e := d[a := blk];
    EntryBits(sb, d, owner, a, blk);
    forall k | 0 <= k < |inodes| ensures InodeOk(sb, e, owner, k, inodes[k])
      ensures forall n: nat | n < MAXFILE :: Addr(e, inodes[k], n) == Addr(d, inodes[k], n)
    {
      StoreInode(sb, d, owner, i, bn, a, blk, k, inodes[k]);
    }
    forall x | x in owner ensures OwnerOk(sb, e, inodes, x, owner[x]) {
      assert OwnerOk(sb, d, inodes, x, owner[x]);
    }
    forall k, x: nat | 0 <= k < |inodes| && x < MAXFILE * BSIZE
      ensures ByteAt(e, inodes[k], x)
              == if k == i && bn * BSIZE + o <= x < bn * BSIZE + o + |s| then s[x - (bn * BSIZE + o)]
                 else ByteAt(d, inodes[k], x)
    {
      StoreByte(sb, d, owner, i, bn, a, blk, k, inodes[k], x);
      assert x / BSIZE == bn <==> bn * BSIZE <= x < bn * BSIZE + BSIZE;
    }
  }

  lemma StoreByte(sb: Super, d: Disk, owner: Owners, i: nat, bn: nat, a: nat, blk: Block, k: nat, ip: Inode, off: nat)
    requires InodeOk(sb, d, owner, k, ip) && 0 < a < |d| && a in owner && owner[a] == Data(i, bn)
             && off < MAXFILE * BSIZE
    requires k == i ==> bn < MAXFILE && Addr(d, ip, bn) == a
    ensures ByteAt(d[a := blk], ip, off)
            == if k == i && off / BSIZE == bn then blk[off % BSIZE] else ByteAt(d, ip, off)
  {
    StoreInode(sb, d, owner, i, bn, a, blk, k, ip);
    var n := off / BSIZE;
    assert Addr(d[a := blk], ip, n) == Addr(d, ip, n);
  }

  lemma StoreInode(sb: Super, d: Disk, owner: Owners, i: nat, bn: nat, a: nat, blk: Block, k: nat, ip: Inode)
    requires InodeOk(sb, d, owner, k, ip) && a < |d| && a in owner && owner[a] == Data(i, bn)
    ensures InodeOk(sb, d[a := blk], owner, k, ip)
    ensures forall n: nat | n < MAXFILE :: Addr(d[a := blk], ip, n) == Addr(d, ip, n)
  {
    var e := d[a := blk];
    forall n: nat | n < MAXFILE ensures Addr(e, ip, n) == Addr(d, ip, n) {
      assert ip.addrs[NDIRECT] != 0 ==> e[ip.addrs[NDIRECT]] == d[ip.addrs[NDIRECT]];
    }
  }

  /** Block numbers already found stay as they are while owners are only added. */
  lemma AddrsStay(sb: Super, d: Disk, inodes: seq<Inode>, owner: Owners, d': Disk, inodes': seq<Inode>, owner': Owners,
                  k: nat, n: nat)
    requires Ok(sb, d, inodes, owner) && Ok(sb, d', inodes', owner') && k < |inodes| == |inodes'|
    requires forall x | x in owner :: x in owner' && owner'[x] == owner[x]
    ensures var a := Addr(d, inodes[k], n); a != 0 ==> Addr(d', inodes'[k], n) == a && a in owner
  {
    var a := Addr(d, inodes[k], n);
    assert InodeOk(sb, d, owner, k, inodes[k]);
    if a != 0 {
      assert OwnerOk(sb, d', inodes', a, owner'[a]);
    }
  }

  // ---------- truncation ----------

  predicate OfFile(o: Owner, i: nat) {
    !o.Meta? && o.inum == i
  }

  const EMPTY := Inode(0, [0, 0, 0, 0, 0, 0, 0, 0, 0, 0, 0, 0, 0])

  /** File `i` has no bytes any more; every other file's bytes are as they were. */
  ghost predicate Emptied(d: Disk, inodes: seq<Inode>, d': Disk, inodes': seq<Inode>, i: nat) {
    |inodes'| == |inodes| && forall k, x: nat | 0 <= k < |inodes| && x < MAXFILE * BSIZE ::
      ByteAt(d', inodes'[k], x) == if k == i then 0 else ByteAt(d, inodes[k], x)
  }

  /** Clearing exactly the bits of one file's blocks, and emptying its inode, keeps the invariant
      and the contents of every other file. */
  lemma Truncated(sb: Super, d: Disk, inodes: seq<Inode>, owner: Owners, i: nat, e: Disk, left: Owners)
    requires Ok(sb, d, inodes, owner) && i < |inodes| && |e| == |d|
    requires forall x | sb.datastart <= x < sb.size :: e[x] == d[x]
    requires BitsOk(sb, e, left)
    requires forall x :: x in left <==> x in owner && !OfFile(owner[x], i)
    requires forall x | x in left :: left[x] == owner[x]
    ensures Ok(sb, e, inodes[i := EMPTY], left)
    ensures Emptied(d, inodes, e, inodes[i := EMPTY], i)
  {
    var inodes' := inodes[i := EMPTY];
    MetaBelow(sb, d, inodes, owner);
    forall k | 0 <= k < |inodes| && k != i
      ensures InodeOk(sb, e, left, k, inodes[k])
      ensures forall n: nat | n < MAXFILE :: Addr(e, inodes[k], n) == Addr(d, inodes[k], n)
    {
      KeptInode(sb, d, owner, e, left, k, inodes[k]);
    }
    assert InodeOk(sb, e, left, i, EMPTY);
    forall x | x in left ensures OwnerOk(sb, e, inodes', x, left[x]) {
      assert OwnerOk(sb, d, inodes, x, owner[x]);
    }
    TruncatedBytes(sb, d, inodes, owner, i, e, left);
  }

  lemma MetaBelow(sb: Super, d: Disk, inodes: seq<Inode>, owner: Owners)
    requires Ok(sb, d, inodes, owner)
    ensures forall x | x in owner :: x < sb.datastart <==> owner[x].Meta?
    ensures forall k | 0 <= k < |inodes| :: InodeOk(sb, d, owner, k, inodes[k])
  {
    forall x | x in owner ensures x < sb.datastart <==> owner[x].Meta? {
      assert OwnerOk(sb, d, inodes, x, owner[x]);
    }
  }

  lemma TruncatedBytes(sb: Super, d: Disk, inodes: seq<Inode>, owner: Owners, i: nat, e: Disk, left: Owners)
    requires Ok(sb, d, inodes, owner) && i < |inodes| && |e| == |d| == sb.size
    requires forall x | sb.datastart <= x < sb.size :: e[x] == d[x]
    requires forall x :: x in left <==> x in owner && !OfFile(owner[x], i)
    requires forall x | x in left :: left[x] == owner[x]
    ensures Emptied(d, inodes, e, inodes[i := EMPTY], i)
  {
    hide Ok, OwnerOk, InodeOk, BitsOk;
    MetaBelow(sb, d, inodes, owner);
    forall k, off: nat | 0 <= k < |inodes| && off < MAXFILE * BSIZE
      ensures ByteAt(e, inodes[i := EMPTY][k], off) == if k == i then 0 else ByteAt(d, inodes[k], off)
    {
      if k != i {
        KeptByte(sb, d, owner, e, left, k, inodes[k], off);
      } else {
        assert Addr(e, EMPTY, off / BSIZE) == 0;
      }
    }
  }

  /** Changes outside the data blocks, and to owners of other files, do not concern inode `k`. */
  lemma KeptInode(sb: Super, d: Disk, owner: Owners, e: Disk, left: Owners, k: nat, ip: Inode)
    requires InodeOk(sb, d, owner, k, ip) && |e| == |d| == sb.size
    requires forall x | x in owner && x < sb.datastart :: owner[x].Meta?
    requires forall x | sb.datastart <= x < sb.size :: e[x] == d[x]
    requires forall x | x in owner && OfFile(owner[x], k) :: x in left && left[x] == owner[x]
    ensures InodeOk(sb, e, left, k, ip)
    ensures forall n: nat | n < MAXFILE :: Addr(e, ip, n) == Addr(d, ip, n)
  {
    var c := ip.addrs[NDIRECT];
    assert c != 0 ==> e[c] == d[c];
    assert forall n: nat | n < MAXFILE :: Addr(e, ip, n) == Addr(d, ip, n);
  }

  lemma KeptByte(sb: Super, d: Disk, owner: Owners, e: Disk, left: Owners, k: nat, ip: Inode, off: nat)
    requires InodeOk(sb, d, owner, k, ip) && |e| == |d| == sb.size && off < MAXFILE * BSIZE
    requires forall x | x in owner && x < sb.datastart :: owner[x].Meta?
    requires forall x | sb.datastart <= x < sb.size :: e[x] == d[x]
    requires forall x | x in owner && OfFile(owner[x], k) :: x in left && left[x] == owner[x]
    ensures ByteAt(e, ip, off) == ByteAt(d, ip, off)
  {
    KeptInode(sb, d, owner, e, left, k, ip);
    assert Addr(e, ip, off / BSIZE) == Addr(d, ip, off / BSIZE);
  }

  /** Part way through itrunc: the bits of the first `n` blocks of file `i` are clear. */
  ghost predicate Freeing(sb: Super, d: Disk, owner: Owners, e: Disk, left: Owners, i: nat, n: nat) {
    && sb.Valid() && |e| == |d| == sb.size && BitsOk(sb, e, left)
    && (forall x | sb.datastart <= x < sb.size :: e[x] == d[x])
    && (forall x :: x in left <==> x in owner && !(owner[x].Data? && owner[x].inum == i && owner[x].bn < n))
    && (forall x | x in left :: left[x] == owner[x])
  }

  /** The blocks of file `i` are its indirect block and those its block map finds. */
  lemma OwnedBlocks(sb: Super, d: Disk, inodes: seq<Inode>, owner: Owners, i: nat)
    requires Ok(sb, d, inodes, owner) && i < |inodes|
    ensures sb.Valid() && |d| == sb.size && |inodes[i].addrs| == NDIRECT + 1
    ensures var c := inodes[i].addrs[NDIRECT]; c != 0 ==> c in owner && owner[c] == Indirect(i)
    ensures forall n: nat | n < MAXFILE ::
              var a := Addr(d, inodes[i], n); a != 0 ==> a in owner && owner[a] == Data(i, n)
    ensures forall x | x in owner && OfFile(owner[x], i) ::
              && sb.datastart <= x < sb.size
              && if owner[x].Indirect? then x == inodes[i].addrs[NDIRECT]
                 else owner[x].bn < MAXFILE && Addr(d, inodes[i], owner[x].bn) == x
  {
    assert InodeOk(sb, d, owner, i, inodes[i]);
    forall x | x in owner && OfFile(owner[x], i) ensures OwnerOk(sb, d, inodes, x, owner[x]) {}
  }

  /** The next block has one owner, so its bit is set, and clearing it frees that block only. */
  lemma FreeNext(sb: Super, d: Disk, inodes: seq<Inode>, owner: Owners, i: nat, e: Disk, left: Owners, n: nat)
    requires Ok(sb, d, inodes, owner) && i < |inodes| && n < MAXFILE && Freeing(sb, d, owner, e, left, i, n)
    ensures var b: nat := Addr(d, inodes[i], n);
            if b == 0 then Freeing(sb, d, owner, e, left, i, n + 1)
            else |e| == sb.size && b < sb.size && Used(sb, e, b)
                 && Freeing(sb, d, owner, Mark(sb, e, b, false), left - {b}, i, n + 1)
  {
    hide Ok, OwnerOk, InodeOk, Bit, Addr, Mark;
    OwnedBlocks(sb, d, inodes, owner, i);
    var b: nat := Addr(d, inodes[i], n);
    if b != 0 {
      assert sb.bmapstart + b / BPB < sb.datastart;
    }
  }

  lemma FreeingStart(sb: Super, d: Disk, inodes: seq<Inode>, owner: Owners, i: nat)
    requires Ok(sb, d, inodes, owner) && i < |inodes|
    ensures Freeing(sb, d, owner, d, owner, i, 0) && |inodes[i].addrs| == NDIRECT + 1
    ensures forall n: nat | n < NDIRECT :: Addr(d, inodes[i], n) == inodes[i].addrs[n]
  {
    assert InodeOk(sb, d, owner, i, inodes[i]);
  }

  /** The indirect block is as it was when the entries are read from it. */
  lemma FreeingIndirect(sb: Super, d: Disk, inodes: seq<Inode>, owner: Owners, i: nat, e: Disk, left: Owners, n: nat,
                        c: nat)
    requires Ok(sb, d, inodes, owner) && i < |inodes| && Freeing(sb, d, owner, e, left, i, n)
    requires |inodes[i].addrs| == NDIRECT + 1 && inodes[i].addrs[NDIRECT] == c != 0
    ensures c < |e| && forall j: nat | j < NINDIRECT :: Addr(d, inodes[i], NDIRECT + j) == Word(e[c], j)
  {
    assert InodeOk(sb, d, owner, i, inodes[i]);
    assert OwnerOk(sb, d, inodes, c, owner[c]);
  }

  /** A file without an indirect block has no blocks past NDIRECT. */
  lemma FreeingDirectOnly(sb: Super, d: Disk, inodes: seq<Inode>, owner: Owners, i: nat, e: Disk, left: Owners)
    requires Ok(sb, d, inodes, owner) && i < |inodes| && Freeing(sb, d, owner, e, left, i, NDIRECT)
    requires |inodes[i].addrs| == NDIRECT + 1 && inodes[i].addrs[NDIRECT] == 0
    ensures Ok(sb, e, inodes[i := EMPTY], left) && Emptied(d, inodes, e, inodes[i := EMPTY], i)
    ensures forall x :: x in left <==> x in owner && !OfFile(owner[x], i)
  {
    hide Ok, OwnerOk, InodeOk;
    OwnedBlocks(sb, d, inodes, owner, i);
    Truncated(sb, d, inodes, owner, i, e, left);
  }

  /** The indirect block goes last. */
  lemma FreeIndirect(sb: Super, d: Disk, inodes: seq<Inode>, owner: Owners, i: nat, e: Disk, left: Owners, c: nat)
    requires Ok(sb, d, inodes, owner) && i < |inodes| && Freeing(sb, d, owner, e, left, i, MAXFILE)
    requires |inodes[i].addrs| == NDIRECT + 1 && inodes[i].addrs[NDIRECT] == c != 0
    ensures |e| == sb.size && c < sb.size && Used(sb, e, c)
    ensures var e' := Mark(sb, e, c, false);
            Ok(sb, e', inodes[i := EMPTY], left - {c}) && Emptied(d, inodes, e', inodes[i := EMPTY], i)
    ensures forall x :: x in left - {c} <==> x in owner && !OfFile(owner[x], i)
  {
    hide Ok, OwnerOk, InodeOk, Bit;
    OwnedBlocks(sb, d, inodes, owner, i);
    assert sb.bmapstart + c / BPB < sb.datastart;
    Truncated(sb, d, inodes, owner, i, Mark(sb, e, c, false), left - {c});
  }
}
