/** Sv39 page tables as kernel/vm.c builds them: trees of pages in physical memory, three levels of
    512 entries (section 4.4 of the RISC-V Privileged Architecture).

    Pages are named by page number: `f` for a page of physical memory, `v` for a virtual page.
    `at` gives the page that holds the table at each position of each tree, and `use` the one use
    of every page that is not free.  The invariant ties both to the entries in memory. */
module PageTables {
  import opened Prelude

  const ENTRIES := 512
  const PGSIZE := 4096
  /** MAXVA / PGSIZE */
  const MAXVPN := 0x400_0000

  datatype Flags = Flags(v: bool, r: bool, w: bool, x: bool, u: bool)

  /** A page table entry: a page number and the flag bits. */
  datatype Pte = Pte(frame: nat, flags: Flags) {
    predicate V() { flags.v }

    /** A valid entry without R, W and X points to a table. */
    predicate Leaf() { flags.r || flags.w || flags.x }

    /** What uvmunmap takes for an entry that is not a leaf. */
    predicate OnlyV() { flags == Flags(true, false, false, false, false) }
  }

  const NONE := Pte(0, Flags(false, false, false, false, false))

  /** PA2PTE(pa) | perm | PTE_V */
  function MakePte(f: nat, perm: Flags): (e: Pte) {
    Pte(f, perm.(v := true))
  }

  /** The entry for a table. */
  function Link(f: nat): (e: Pte) {
    MakePte(f, NONE.flags)
  }

  datatype Page = Table(ptes: seq<Pte>) | Data(bytes: seq<Byte>)
  type Memory = map<nat, Page>

  /** A table's place: the root page of its tree, its level, and the indices that lead to it. */
  datatype Pos = Pos(root: nat, level: nat, prefix: nat)
  datatype Use = TableAt(pos: Pos) | LeafAt(root: nat, v: nat) | Held

  type Tables = map<Pos, nat>
  type Uses = map<nat, Use>

  // ---------- the 64-bit form of an entry ----------

  function Bit(b: bool): (n: nat) { if b then 1 else 0 }

  /** The entry as it is stored: the page number from bit 10 on, the flags in the low bits. */
  function Encode(e: Pte): (w: nat) {
    Bit(e.flags.v) + 2 * (Bit(e.flags.r)
                          + 2 * (Bit(e.flags.w) + 2 * (Bit(e.flags.x) + 2 * (Bit(e.flags.u) + 2 * (32 * e.frame)))))
  }

  /** The bits of PTE_V, PTE_R, PTE_W, PTE_X and PTE_U, and the page number from bit 10 on. */
  lemma EncodeBits(e: Pte)
    ensures Encode(e) == 0x400 * e.frame + (if e.flags.v then 1 else 0) + (if e.flags.r then 2 else 0)
                         + (if e.flags.w then 4 else 0) + (if e.flags.x then 8 else 0) + (if e.flags.u then 16 else 0)
  {
  }

  /** PTE2PA and the tests of single flag bits. */
  function Decode(w: nat): (e: Pte) {
    var w1 := w / 2;
    var w2 := w1 / 2;
    var w3 := w2 / 2;
    var w4 := w3 / 2;
    Pte(w4 / 2 / 32, Flags(w % 2 == 1, w1 % 2 == 1, w2 % 2 == 1, w3 % 2 == 1, w4 % 2 == 1))
  }

  lemma Halve(b: bool, n: nat)
    ensures (Bit(b) + 2 * n) / 2 == n && ((Bit(b) + 2 * n) % 2 == 1 <==> b)
  {
  }

  lemma EncodeDecode(e: Pte)
    ensures Decode(Encode(e)) == e
  {
    var w5 := 32 * e.frame;
    var w4 := Bit(e.flags.u) + 2 * w5;
    var w3 := Bit(e.flags.x) + 2 * w4;
    var w2 := Bit(e.flags.w) + 2 * w3;
    var w1 := Bit(e.flags.r) + 2 * w2;
    Halve(e.flags.v, w1);
    Halve(e.flags.r, w2);
    Halve(e.flags.w, w3);
    Halve(e.flags.x, w4);
    Halve(e.flags.u, w5);
  }

  // ---------- the tree ----------

  function Parent(p: Pos): (q: Pos) {
    Pos(p.root, p.level + 1, p.prefix / ENTRIES)
  }

  function Child(p: Pos, i: nat): (q: Pos)
    requires p.level > 0 && i < ENTRIES
    ensures Parent(q) == p && q.prefix % ENTRIES == i
  {
    Pos(p.root, p.level - 1, p.prefix * ENTRIES + i)
  }

  /** The table at each level on the way to page `v`, and the index used there. */
  function Node(r: nat, v: nat, level: nat): (p: Pos) {
    Pos(r, level, if level >= 2 then 0 else if level == 1 then v / 0x4_0000 else v / ENTRIES)
  }

  function Index(v: nat, level: nat): (i: nat)
    ensures v < MAXVPN ==> i < ENTRIES
  {
    if level >= 2 then v / 0x4_0000 else if level == 1 then v / ENTRIES % ENTRIES else v % ENTRIES
  }

  lemma NodeChild(r: nat, v: nat, level: nat)
    requires v < MAXVPN && 0 < level <= 2
    ensures Child(Node(r, v, level), Index(v, level)) == Node(r, v, level - 1)
  {
    assert v / ENTRIES / ENTRIES == v / 0x4_0000;
  }

  function EntryAt(mem: Memory, t: nat, i: nat): (e: Pte) {
    if t in mem && mem[t].Table? && i < |mem[t].ptes| then mem[t].ptes[i] else NONE
  }

  ghost predicate EntryOk(at: Tables, p: Pos, i: nat, e: Pte)
    requires p.level > 0 && i < ENTRIES
  {
    && (e.V() <==> Child(p, i) in at)
    && (e.V() ==> e == Link(at[Child(p, i)]))
  }

  ghost predicate NodeOk(mem: Memory, at: Tables, use: Uses, p: Pos, t: nat) {
    && p.level <= 2 && t in mem && mem[t].Table? && |mem[t].ptes| == ENTRIES && t in use && use[t] == TableAt(p)
    && (p.level == 2 ==> p.prefix == 0 && t == p.root)
    && (p.level < 2 ==> Parent(p) in at) && (p.level == 0 ==> p.prefix < MAXVPN / ENTRIES)
    && (p.level > 0 ==> forall i: nat | i < ENTRIES :: EntryOk(at, p, i, mem[t].ptes[i]))
  }

  ghost predicate TreeOk(mem: Memory, at: Tables, use: Uses) {
    && (forall p | p in at :: NodeOk(mem, at, use, p, at[p]))
    && (forall f | f in use && use[f].TableAt? :: use[f].pos in at && at[use[f].pos] == f)
  }

  /** The flat map: the entry for page `v` of the tree with root `r`. */
  ghost function Flat(mem: Memory, at: Tables, r: nat, v: nat): (e: Pte) {
    var p := Node(r, v, 0);
    if p in at then EntryAt(mem, at[p], Index(v, 0)) else NONE
  }

  lemma OnPath(mem: Memory, at: Tables, use: Uses, r: nat, v: nat, level: nat)
    requires TreeOk(mem, at, use) && v < MAXVPN && 0 < level <= 2 && Node(r, v, level) in at
    ensures var e := EntryAt(mem, at[Node(r, v, level)], Index(v, level));
            && (e.V() <==> Node(r, v, level - 1) in at)
            && (e.V() ==> e.frame == at[Node(r, v, level - 1)] && !e.Leaf())
  {
    NodeChild(r, v, level);
    assert NodeOk(mem, at, use, Node(r, v, level), at[Node(r, v, level)]);
  }

  lemma PathUp(mem: Memory, at: Tables, use: Uses, r: nat, v: nat, level: nat)
    requires TreeOk(mem, at, use) && v < MAXVPN && level < 2 && Node(r, v, level) in at
    ensures Node(r, v, level + 1) in at
  {
    NodeChild(r, v, level + 1);
    assert NodeOk(mem, at, use, Node(r, v, level), at[Node(r, v, level)]);
  }

  // ---------- the hardware's walk ----------

  /** MAXVA */
  const MAXVA := 0x40_0000_0000

  /** Field VPN[level] of an address: nine bits, from bit 12 + 9 * level on. */
  function Vpn(va: nat, level: nat): (i: nat)
    ensures i < 512
  {
    (if level >= 2 then va / 0x4000_0000 else if level == 1 then va / 0x20_0000 else va / 0x1000) % 512
  }

  /** The indices of a page are the fields of its addresses, and together they are the page. */
  lemma IndexIsVpn(va: nat)
    requires va < MAXVA
    ensures Index(va / 4096, 2) == Vpn(va, 2) && Index(va / 4096, 1) == Vpn(va, 1) && Index(va / 4096, 0) == Vpn(va, 0)
    ensures va == Vpn(va, 2) * 0x4000_0000 + Vpn(va, 1) * 0x20_0000 + Vpn(va, 0) * 0x1000 + va % 0x1000
  {
    var v := va / 4096;
    var w := v / 512;
    assert va / 0x20_0000 == w && va / 0x4000_0000 == w / 512 && v / 0x4_0000 == w / 512;
  }

  /** The table of the last level on the way to an address. */
  ghost predicate LeadsTo(mem: Memory, r: nat, va: nat, t: nat) {
    var e2 := EntryAt(mem, r, Vpn(va, 2));
    && e2.V() && !e2.Leaf()
    && var e1 := EntryAt(mem, e2.frame, Vpn(va, 1)); e1.V() && !e1.Leaf() && e1.frame == t
  }

  /** What the hardware finds for an address: the first leaf on the way from the root, or the last entry. */
  function Translate(mem: Memory, r: nat, va: nat): (e: Pte) {
    var e2 := EntryAt(mem, r, Vpn(va, 2));
    if !e2.V() then NONE else if e2.Leaf() then e2 else
    var e1 := EntryAt(mem, e2.frame, Vpn(va, 1));
    if !e1.V() then NONE else if e1.Leaf() then e1 else EntryAt(mem, e1.frame, Vpn(va, 0))
  }

  /** The hardware's walk finds exactly the entries of the flat map. */
  lemma TranslateIsFlat(mem: Memory, at: Tables, use: Uses, r: nat, va: nat)
    requires TreeOk(mem, at, use) && va < MAXVA && Pos(r, 2, 0) in at
    ensures Translate(mem, r, va) == Flat(mem, at, r, va / PGSIZE)
    ensures Node(r, va / PGSIZE, 0) in at ==> LeadsTo(mem, r, va, at[Node(r, va / PGSIZE, 0)])
  {
    var v := va / PGSIZE;
    IndexIsVpn(va);
    assert NodeOk(mem, at, use, Pos(r, 2, 0), at[Pos(r, 2, 0)]);
    OnPath(mem, at, use, r, v, 2);
    if Node(r, v, 0) in at {
      PathUp(mem, at, use, r, v, 0);
    }
    if Node(r, v, 1) in at {
      OnPath(mem, at, use, r, v, 1);
    }
  }

  // ---------- updates ----------

  const ZEROES := seq(ENTRIES, _ => NONE)

  /** Hanging a zeroed table in the empty slot `i` of the table at `p`. */
  lemma AddTable(mem: Memory, at: Tables, use: Uses, p: Pos, i: nat, f: nat, mem': Memory, at': Tables, use': Uses)
    requires TreeOk(mem, at, use) && p in at && p.level > 0 && i < ENTRIES && f in use && use[f] == Held
    requires !EntryAt(mem, at[p], i).V() && (p.level == 1 ==> Child(p, i).prefix < MAXVPN / ENTRIES)
    requires mem' == mem[f := Table(ZEROES)][at[p] := Table(mem[at[p]].ptes[i := Link(f)])]
    requires at' == at[Child(p, i) := f] && use' == use[f := TableAt(Child(p, i))]
    ensures TreeOk(mem', at', use')
    ensures forall r, v :: Flat(mem', at', r, v) == Flat(mem, at, r, v)
  {
    var c := Child(p, i);
    assert NodeOk(mem, at, use, p, at[p]) && EntryOk(at, p, i, mem[at[p]].ptes[i]) && c !in at;
    forall q | q in at ensures NodeOk(mem', at', use', q, at[q]) {
      AddTableNode(mem, at, use, p, i, f, mem', at', use', q);
    }
    assert NodeOk(mem', at', use', c, f) by {
      forall j: nat | c.level > 0 && j < ENTRIES ensures EntryOk(at', c, j, NONE) {
        assert Child(c, j) in at ==> NodeOk(mem, at, use, Child(c, j), at[Child(c, j)]);
      }
    }
    forall r, v ensures Flat(mem', at', r, v) == Flat(mem, at, r, v) {
      var q := Node(r, v, 0);
      if q in at {
        assert NodeOk(mem, at, use, q, at[q]);
      }
    }
  }

  lemma AddTableNode(mem: Memory, at: Tables, use: Uses, p: Pos, i: nat, f: nat, mem': Memory, at': Tables, use': Uses,
                     q: Pos)
    requires p in at && q in at && NodeOk(mem, at, use, p, at[p]) && NodeOk(mem, at, use, q, at[q])
    requires p.level > 0 && i < ENTRIES && Child(p, i) !in at && f in use && use[f] == Held
    requires mem' == mem[f := Table(ZEROES)][at[p] := Table(mem[at[p]].ptes[i := Link(f)])]
    requires at' == at[Child(p, i) := f] && use' == use[f := TableAt(Child(p, i))]
    ensures NodeOk(mem', at', use', q, at[q])
  {
    if q.level > 0 {
      forall j: nat | j < ENTRIES ensures EntryOk(at', q, j, mem'[at[q]].ptes[j]) {
        assert EntryOk(at, q, j, mem[at[q]].ptes[j]);
        assert Child(q, j) == Child(p, i) ==> q == p && j == i;
      }
    }
  }

  // ---------- all of memory ----------

  /** Every page from `lo` to `hi` is on the free list, once, or has a use, but not both. */
  ghost predicate Partition(lo: nat, hi: nat, free: seq<nat>, use: Uses) {
    && Distinct(free)
    && (forall f | f in use :: lo <= f < hi && f !in free)
    && (forall f | f in free :: lo <= f < hi)
    && (forall f: nat | lo <= f < hi && f !in free :: f in use)
  }

  predicate IsData(mem: Memory, f: nat) {
    f in mem && mem[f].Data? && |mem[f].bytes| == PGSIZE
  }

  /** A page of user memory is mapped where its use says. */
  ghost predicate LeafOk(mem: Memory, at: Tables, f: nat, r: nat, v: nat) {
    && v < MAXVPN && Flat(mem, at, r, v).V() && Flat(mem, at, r, v).frame == f && IsData(mem, f)
  }

  ghost predicate LeavesOk(mem: Memory, at: Tables, use: Uses) {
    forall f | f in use && use[f].LeafAt? :: LeafOk(mem, at, f, use[f].root, use[f].v)
  }

  ghost predicate Ok(lo: nat, hi: nat, mem: Memory, free: seq<nat>, at: Tables, use: Uses) {
    && Partition(lo, hi, free, use) && TreeOk(mem, at, use) && LeavesOk(mem, at, use)
    && forall f | f in use && use[f].Held? :: IsData(mem, f)
  }

  /** Every translation of every tree is as it was. */
  ghost predicate Same(mem: Memory, at: Tables, mem': Memory, at': Tables) {
    forall r, v :: Flat(mem', at', r, v) == Flat(mem, at, r, v)
  }

  /** Pages in use stay in use, user pages keep their contents, and the pages newly in use are tables of
      the tree with root `r`. */
  ghost predicate Grown(mem: Memory, at: Tables, use: Uses, mem': Memory, at': Tables, use': Uses, r: nat) {
    && (forall p | p in at :: p in at' && at'[p] == at[p])
    && (forall f | f in use :: f in use' && use'[f] == use[f])
    && (forall f | f in use' && f !in use :: use'[f].TableAt? && use'[f].pos.root == r && use'[f].pos.level < 2)
    && (forall f | f in use && !use[f].TableAt? && f in mem :: f in mem' && mem'[f] == mem[f])
  }

  lemma GrownTrans(mem: Memory, at: Tables, use: Uses, mem1: Memory, at1: Tables, use1: Uses, mem2: Memory, at2: Tables,
                   use2: Uses, r: nat)
    requires Grown(mem, at, use, mem1, at1, use1, r) && Grown(mem1, at1, use1, mem2, at2, use2, r)
    ensures Grown(mem, at, use, mem2, at2, use2, r)
  {
  }

  /** A table hung into the tree, seen from before its page was allocated. */
  lemma AddTableOk(lo: nat, hi: nat, mem: Memory, free: seq<nat>, at: Tables, use: Uses, p: Pos, i: nat, f: nat,
                   mem': Memory, at': Tables, use': Uses)
    requires Ok(lo, hi, mem, free, at, use) && p in at && p.level > 0 && i < ENTRIES && free != [] && f == free[0]
    requires !EntryAt(mem, at[p], i).V() && at[p] in mem && mem[at[p]].Table? && |mem[at[p]].ptes| == ENTRIES
    requires p.level == 1 ==> Child(p, i).prefix < MAXVPN / ENTRIES
    requires mem' == mem[f := Table(ZEROES)][at[p] := Table(mem[at[p]].ptes[i := Link(f)])]
    requires at' == at[Child(p, i) := f] && use' == use[f := TableAt(Child(p, i))]
    ensures Ok(lo, hi, mem', free[1..], at', use') && Same(mem, at, mem', at')
            && Grown(mem, at, use, mem', at', use', p.root)
  {
    hide Partition, LeavesOk, Link, Parent, Flat, TreeOk, NodeOk, Same;
    NewTable(mem, at, use, p, i);
    TookFirst(lo, hi, free, use, TableAt(Child(p, i)));
    HeldTree(mem, at, use, f);
    AddTable(mem, at, use[f := Held], p, i, f, mem', at', use');
    SameAll(mem, at, mem', at');
    LeavesKept(mem, at, use, mem', at', use');
  }

  lemma NewTable(mem: Memory, at: Tables, use: Uses, p: Pos, i: nat)
    requires TreeOk(mem, at, use) && p in at && p.level > 0 && i < ENTRIES && !EntryAt(mem, at[p], i).V()
    ensures Child(p, i) !in at && p.level <= 2 && at[p] in use && use[at[p]].TableAt?
  {
    assert NodeOk(mem, at, use, p, at[p]) && EntryOk(at, p, i, mem[at[p]].ptes[i]);
  }

  lemma SameAll(mem: Memory, at: Tables, mem': Memory, at': Tables)
    requires forall r, v :: Flat(mem', at', r, v) == Flat(mem, at, r, v)
    ensures Same(mem, at, mem', at')
  {
  }

  lemma LeavesKept(mem: Memory, at: Tables, use: Uses, mem': Memory, at': Tables, use': Uses)
    requires LeavesOk(mem, at, use) && Same(mem, at, mem', at')
    requires forall f | f in use' && use'[f].LeafAt? :: f in use && use'[f] == use[f]
    requires forall f | f in use && !use[f].TableAt? && f in mem :: f in mem' && mem'[f] == mem[f]
    ensures LeavesOk(mem', at', use')
  {
    hide Flat;
    forall g | g in use' && use'[g].LeafAt? ensures LeafOk(mem', at', g, use'[g].root, use'[g].v) {
      assert LeafOk(mem, at, g, use[g].root, use[g].v);
    }
  }

  lemma HeldTree(mem: Memory, at: Tables, use: Uses, f: nat)
    requires TreeOk(mem, at, use) && f !in use
    ensures TreeOk(mem, at, use[f := Held])
  {
    forall q | q in at ensures NodeOk(mem, at, use[f := Held], q, at[q]) {
      assert NodeOk(mem, at, use, q, at[q]);
    }
  }

  lemma TookFirst(lo: nat, hi: nat, free: seq<nat>, use: Uses, u: Use)
    requires Partition(lo, hi, free, use) && free != []
    ensures Partition(lo, hi, free[1..], use[free[0] := u]) && free[0] !in use
  {
    var rest := free[1..];
    assert free[0] in free;
    assert forall i | 0 <= i < |rest| :: rest[i] == free[i + 1];
    assert forall x | x in rest :: x in free && x != free[0];
    forall x | x in free ensures x == free[0] || x in rest {
      var i :| 0 <= i < |free| && free[i] == x;
      assert i > 0 ==> rest[i - 1] == x;
    }
  }

  /** Storing an entry for page `v` changes that translation and no other. */
  lemma SetLeaf(mem: Memory, at: Tables, use: Uses, r: nat, v: nat, e: Pte, mem': Memory)
    requires TreeOk(mem, at, use) && v < MAXVPN && Node(r, v, 0) in at
    requires var t := at[Node(r, v, 0)]; t in mem && mem[t].Table? && |mem[t].ptes| == ENTRIES
    requires var t := at[Node(r, v, 0)]; mem' == mem[t := Table(mem[t].ptes[Index(v, 0) := e])]
    ensures TreeOk(mem', at, use)
    ensures forall r': nat, v': nat | v' < MAXVPN ::
              Flat(mem', at, r', v') == if r' == r && v' == v then e else Flat(mem, at, r', v')
  {
    var p := Node(r, v, 0);
    forall q | q in at ensures NodeOk(mem', at, use, q, at[q]) {
      assert NodeOk(mem, at, use, q, at[q]);
    }
    forall r': nat, v': nat | v' < MAXVPN
      ensures Flat(mem', at, r', v') == if r' == r && v' == v then e else Flat(mem, at, r', v')
    {
      var q := Node(r', v', 0);
      if q in at {
        assert NodeOk(mem, at, use, q, at[q]) && NodeOk(mem, at, use, p, at[p]);
        assert v' == v' / ENTRIES * ENTRIES + v' % ENTRIES && v == v / ENTRIES * ENTRIES + v % ENTRIES;
      }
    }
  }

  /** Pages `v` to `v + n` of the tree with root `r` now lead to the pages from `f` on; every other
      translation is as it was. */
  ghost predicate Maps(mem: Memory, at: Tables, mem': Memory, at': Tables, r: nat, v: nat, n: nat, f: nat,
                       perm: Flags) {
    forall r': nat, v': nat | v' < MAXVPN ::
      Flat(mem', at', r', v')
      == if r' == r && v <= v' < v + n then MakePte(f + (v' - v), perm) else Flat(mem, at, r', v')
  }

  /** Pages `v` to `v + n` of the tree with root `r` are no longer mapped; every other translation
      is as it was. */
  ghost predicate Unmaps(mem: Memory, at: Tables, mem': Memory, at': Tables, r: nat, v: nat, n: nat) {
    forall r': nat, v': nat | v' < MAXVPN ::
      Flat(mem', at', r', v') == if r' == r && v <= v' < v + n then NONE else Flat(mem, at, r', v')
  }

  lemma TableUse(mem: Memory, at: Tables, use: Uses, p: Pos)
    requires TreeOk(mem, at, use) && p in at
    ensures at[p] in use && use[at[p]] == TableAt(p)
  {
    assert NodeOk(mem, at, use, p, at[p]);
  }

  /** Leaves elsewhere than at page `v` of the tree `r` are not touched by a change there. */
  lemma LeavesStay(mem: Memory, at: Tables, use: Uses, mem': Memory, r: nat, v: nat)
    requires LeavesOk(mem, at, use) && forall f | f in use :: use[f] != LeafAt(r, v)
    requires forall r': nat, v': nat | v' < MAXVPN
             && (r' != r || v' != v) :: Flat(mem', at, r', v') == Flat(mem, at, r', v')
    requires forall f | f in use && !use[f].TableAt? && f in mem :: f in mem' && mem'[f] == mem[f]
    ensures LeavesOk(mem', at, use)
  {
    hide Flat;
    forall g | g in use && use[g].LeafAt? ensures LeafOk(mem', at, g, use[g].root, use[g].v) {
      assert LeafOk(mem, at, g, use[g].root, use[g].v);
    }
  }

  /** An entry stored where none was. */
  lemma SetLeafOk(lo: nat, hi: nat, mem: Memory, free: seq<nat>, at: Tables, use: Uses, r: nat, v: nat, e: Pte,
                  mem': Memory)
    requires Ok(lo, hi, mem, free, at, use) && v < MAXVPN && Node(r, v, 0) in at && !Flat(mem, at, r, v).V()
    requires var t := at[Node(r, v, 0)]; t in mem && mem[t].Table? && |mem[t].ptes| == ENTRIES
    requires var t := at[Node(r, v, 0)]; mem' == mem[t := Table(mem[t].ptes[Index(v, 0) := e])]
    ensures Ok(lo, hi, mem', free, at, use) && Grown(mem, at, use, mem', at, use, r)
    ensures forall r': nat, v': nat | v' < MAXVPN ::
              Flat(mem', at, r', v') == if r' == r && v' == v then e else Flat(mem, at, r', v')
  {
    hide Flat, Node, Index, TreeOk;
    SetLeaf(mem, at, use, r, v, e, mem');
    TableUse(mem, at, use, Node(r, v, 0));
    assert forall f | f in use && use[f] == LeafAt(r, v) :: LeafOk(mem, at, f, r, v);
    LeavesStay(mem, at, use, mem', r, v);
  }

  /** A mapped page of user memory given back and its entry cleared. */
  lemma DropLeaf(lo: nat, hi: nat, mem: Memory, free: seq<nat>, at: Tables, use: Uses, r: nat, v: nat, f: nat,
                 junk: Page, free': seq<nat>, mem': Memory)
    requires Ok(lo, hi, mem, free, at, use) && v < MAXVPN && Node(r, v, 0) in at
    requires f in use && use[f] == LeafAt(r, v) && Partition(lo, hi, free', use - {f})
    requires var t := at[Node(r, v, 0)]; t in mem && mem[t].Table? && |mem[t].ptes| == ENTRIES
    requires var t := at[Node(r, v, 0)]; mem' == mem[f := junk][t := Table(mem[t].ptes[Index(v, 0) := NONE])]
    ensures Ok(lo, hi, mem', free', at, use - {f})
    ensures forall g | g in use - {f} && !use[g].TableAt? && g in mem :: g in mem' && mem'[g] == mem[g]
    ensures forall r': nat, v': nat | v' < MAXVPN ::
              Flat(mem', at, r', v') == if r' == r && v' == v then NONE else Flat(mem, at, r', v')
  {
    hide Flat, Node;
    var mem1 := mem[f := junk];
    var t := at[Node(r, v, 0)];
    assert NodeOk(mem, at, use, Node(r, v, 0), t);
    ForgetLeaf(mem, at, use, f, junk);
    SetLeaf(mem1, at, use - {f}, r, v, NONE, mem');
    assert LeafOk(mem, at, f, r, v);
    forall g | g in use - {f} && use[g].LeafAt? ensures LeafOk(mem', at, g, use[g].root, use[g].v) {
      assert LeafOk(mem, at, g, use[g].root, use[g].v);
    }
  }

  /** Contents of a page that is no table do not matter to the trees. */
  lemma ForgetLeaf(mem: Memory, at: Tables, use: Uses, f: nat, junk: Page)
    requires TreeOk(mem, at, use) && (f in use ==> !use[f].TableAt?)
    ensures TreeOk(mem[f := junk], at, use - {f}) && TreeOk(mem[f := junk], at, use)
            && Same(mem, at, mem[f := junk], at)
  {
    forall q | q in at
      ensures NodeOk(mem[f := junk], at, use - {f}, q, at[q]) && NodeOk(mem[f := junk], at, use, q, at[q])
    {
      assert NodeOk(mem, at, use, q, at[q]);
    }
    forall r, v ensures Flat(mem[f := junk], at, r, v) == Flat(mem, at, r, v) {
      var q := Node(r, v, 0);
      assert q in at ==> NodeOk(mem, at, use, q, at[q]);
    }
  }

  // ---------- user memory ----------

  /** The entry for page `v` is one uvmunmap removes. */
  ghost predicate Removable(mem: Memory, at: Tables, r: nat, v: nat) {
    v < MAXVPN && Flat(mem, at, r, v).V() && !Flat(mem, at, r, v).OnlyV()
  }

  /** What uvmunmap may remove from pages `v` to `v + n` leads to user memory of their own. */
  ghost predicate Owned(mem: Memory, at: Tables, use: Uses, r: nat, v: nat, n: nat) {
    forall v': nat | v <= v' < v + n && Removable(mem, at, r, v') ::
      var e := Flat(mem, at, r, v'); e.frame in use && use[e.frame] == LeafAt(r, v')
  }

  /** The user memory of pages `v` to `v + n` is free again; every other page has the use it had. */
  ghost predicate Freed(use: Uses, use': Uses, r: nat, v: nat, n: nat) {
    && (forall f | f in use' :: f in use && use'[f] == use[f])
    && (forall f | f in use :: f in use' <==> !(use[f].LeafAt? && use[f].root == r && v <= use[f].v < v + n))
  }

  /** Pages other than tables that are still in use have the contents they had. */
  ghost predicate KeepsData(mem: Memory, mem': Memory, use: Uses) {
    forall f | f in use && !use[f].TableAt? && f in mem :: f in mem' && mem'[f] == mem[f]
  }

  /** Part way through uvmunmap. */
  ghost predicate Unmapping(mem: Memory, at: Tables, use: Uses, mem': Memory, use': Uses, r: nat, v: nat, n: nat,
                            doFree: bool) {
    && Unmaps(mem, at, mem', at, r, v, n) && KeepsData(mem, mem', use')
    && (if doFree then Freed(use, use', r, v, n) else use' == use)
  }

  lemma UnmapStart(mem: Memory, at: Tables, use: Uses, r: nat, v: nat, doFree: bool)
    ensures Unmapping(mem, at, use, mem, use, r, v, 0, doFree)
  {
  }

  /** The entry found at the next page is the one that was there at the start. */
  lemma UnmapFinds(mem: Memory, at: Tables, use: Uses, mem': Memory, use': Uses, r: nat, v: nat, n: nat, k: nat,
                   doFree: bool)
    requires Unmapping(mem, at, use, mem', use', r, v, k, doFree) && v + k < MAXVPN && k < n
    requires doFree ==> Owned(mem, at, use, r, v, n)
    ensures var e := Flat(mem', at, r, v + k);
            && e == Flat(mem, at, r, v + k)
            && (doFree && Removable(mem, at, r, v + k) ==> e.frame in use' && use'[e.frame] == LeafAt(r, v + k))
  {
    hide Flat;
  }

  lemma UnmapStep(lo: nat, hi: nat, memS: Memory, useS: Uses, mem: Memory, free: seq<nat>, at: Tables, use: Uses,
                  r: nat, v: nat, k: nat, f: nat, junk: Page, free': seq<nat>, mem': Memory)
    requires Ok(lo, hi, mem, free, at, use) && v + k < MAXVPN && Node(r, v + k, 0) in at
    requires Unmapping(memS, at, useS, mem, use, r, v, k, true)
    requires f in use && use[f] == LeafAt(r, v + k) && Partition(lo, hi, free', use - {f})
    requires var t := at[Node(r, v + k, 0)]; t in mem && mem[t].Table? && |mem[t].ptes| == ENTRIES
    requires var t := at[Node(r, v + k, 0)]; mem' == mem[f := junk][t := Table(mem[t].ptes[Index(v + k, 0) := NONE])]
    ensures Ok(lo, hi, mem', free', at, use - {f})
    ensures Unmapping(memS, at, useS, mem', use - {f}, r, v, k + 1, true)
  {
    hide Flat, Node, Index, Partition, TreeOk;
    DropLeaf(lo, hi, mem, free, at, use, r, v + k, f, junk, free', mem');
    OneLeaf(mem, at, use, f);
  }

  /** A virtual page has one page of user memory at most. */
  lemma OneLeaf(mem: Memory, at: Tables, use: Uses, f: nat)
    requires LeavesOk(mem, at, use) && f in use && use[f].LeafAt?
    ensures forall g | g in use && use[g] == use[f] :: g == f
  {
    forall g | g in use && use[g] == use[f] ensures g == f {
      assert LeafOk(mem, at, f, use[f].root, use[f].v) && LeafOk(mem, at, g, use[g].root, use[g].v);
    }
  }

  /** An entry cleared that does not lead to user memory of its own. */
  lemma UnmapKeep(lo: nat, hi: nat, memS: Memory, useS: Uses, mem: Memory, free: seq<nat>, at: Tables, use: Uses,
                  r: nat, v: nat, k: nat, mem': Memory)
    requires Ok(lo, hi, mem, free, at, use) && v + k < MAXVPN && Node(r, v + k, 0) in at
    requires Unmapping(memS, at, useS, mem, use, r, v, k, false)
    requires forall f | f in use :: use[f] != LeafAt(r, v + k)
    requires var t := at[Node(r, v + k, 0)]; t in mem && mem[t].Table? && |mem[t].ptes| == ENTRIES
    requires var t := at[Node(r, v + k, 0)]; mem' == mem[t := Table(mem[t].ptes[Index(v + k, 0) := NONE])]
    ensures Ok(lo, hi, mem', free, at, use) && Unmapping(memS, at, useS, mem', use, r, v, k + 1, false)
  {
    hide Flat, Node, Index, TreeOk, LeavesOk;
    SetLeaf(mem, at, use, r, v + k, NONE, mem');
    TableUse(mem, at, use, Node(r, v + k, 0));
    LeavesStay(mem, at, use, mem', r, v + k);
  }

  // ---------- pages added to a tree ----------

  /** What a new page of user memory is to hold, and its flags. */
  datatype Want = Want(flags: Flags, page: Page)

  /** Page `v` of the tree `r` leads to user memory of its own with these flags and contents. */
  ghost predicate UserPage(mem: Memory, at: Tables, use: Uses, r: nat, v: nat, w: Want) {
    var e := Flat(mem, at, r, v);
    e.flags == w.flags && e.frame in use && use[e.frame] == LeafAt(r, v) && e.frame in mem && mem[e.frame] == w.page
  }

  /** Pages from `v` on were added to the tree `r` as `want` says; everything else is as it was. */
  ghost predicate Added(mem: Memory, at: Tables, use: Uses, mem': Memory, at': Tables, use': Uses, r: nat, v: nat,
                        want: seq<Want>) {
    && (forall r': nat, v': nat | v' < MAXVPN && !(r' == r && v <= v' < v + |want|) ::
          Flat(mem', at', r', v') == Flat(mem, at, r', v'))
    && (forall i: nat | i < |want| :: UserPage(mem', at', use', r, v + i, want[i]))
    && (forall p | p in at :: p in at' && at'[p] == at[p])
    && (forall f | f in use :: f in use' && use'[f] == use[f])
    && (forall f | f in use' && f !in use :: NewUse(use'[f], r, v, |want|))
    && KeepsData(mem, mem', use)
  }

  predicate NewUse(u: Use, r: nat, v: nat, n: nat) {
    || (u.TableAt? && u.pos.root == r && u.pos.level < 2)
    || (u.LeafAt? && u.root == r && v <= u.v < v + n)
  }

  /** Holding the first free page, filled with `page`. */
  lemma Holding(lo: nat, hi: nat, mem: Memory, free: seq<nat>, at: Tables, use: Uses, f: nat, page: Page, mem': Memory)
    requires Ok(lo, hi, mem, free, at, use) && free != [] && f == free[0] && mem' == mem[f := page]
    requires page.Data? && |page.bytes| == PGSIZE
    ensures Ok(lo, hi, mem', free[1..], at, use[f := Held]) && Same(mem, at, mem', at) && f !in use
  {
    hide Flat, TreeOk, LeavesOk, Partition, Same;
    TookFirst(lo, hi, free, use, Held);
    HeldTree(mem, at, use, f);
    ForgetLeaf(mem, at, use[f := Held], f, page);
    LeavesKept(mem, at, use, mem', at, use[f := Held]);
  }

  /** A mapped held page becomes user memory. */
  lemma Adopt(lo: nat, hi: nat, mem: Memory, free: seq<nat>, at: Tables, use: Uses, r: nat, v: nat, f: nat)
    requires Ok(lo, hi, mem, free, at, use) && f in use && use[f] == Held && v < MAXVPN
    requires Flat(mem, at, r, v).V() && Flat(mem, at, r, v).frame == f
    ensures Ok(lo, hi, mem, free, at, use[f := LeafAt(r, v)])
  {
    hide Flat;
    var use' := use[f := LeafAt(r, v)];
    forall q | q in at ensures NodeOk(mem, at, use', q, at[q]) {
      assert NodeOk(mem, at, use, q, at[q]);
    }
    forall g | g in use' && use'[g].LeafAt? ensures LeafOk(mem, at, g, use'[g].root, use'[g].v) {
      if g != f {
        assert LeafOk(mem, at, g, use[g].root, use[g].v);
      }
    }
  }

  lemma AddedNone(mem: Memory, at: Tables, use: Uses, r: nat, v: nat)
    ensures Added(mem, at, use, mem, at, use, r, v, [])
  {
  }

  /** The page that could not be mapped is given back. */
  lemma AddFailed(lo: nat, hi: nat, memS: Memory, atS: Tables, useS: Uses, memM: Memory, mem: Memory, free: seq<nat>,
                  at: Tables, use: Uses, r: nat, v: nat, f: nat, perm: Flags, free': seq<nat>, junk: Page)
    requires Ok(lo, hi, mem, free, at, use) && f !in useS && Same(memS, atS, memM, atS) && KeepsData(memS, memM, useS)
    requires Grown(memM, atS, useS[f := Held], mem, at, use, r) && Maps(memM, atS, mem, at, r, v, 0, f, perm)
    requires Partition(lo, hi, free', use - {f})
    ensures Ok(lo, hi, mem[f := junk], free', at, use - {f})
    ensures Added(memS, atS, useS, mem[f := junk], at, use - {f}, r, v, [])
  {
    hide Flat, TreeOk, LeavesOk, Partition;
    assert f in useS[f := Held] && use[f] == Held;
    ForgetLeaf(mem, at, use, f, junk);
    FewerLeaves(mem, at, use, f);
    LeavesKept(mem, at, use - {f}, mem[f := junk], at, use - {f});
    assert Same(mem, at, mem[f := junk], at);
  }

  lemma FewerLeaves(mem: Memory, at: Tables, use: Uses, f: nat)
    requires LeavesOk(mem, at, use)
    ensures LeavesOk(mem, at, use - {f})
  {
    hide LeafOk;
  }

  /** The page is mapped, and from now on user memory. */
  lemma AddDone(lo: nat, hi: nat, memS: Memory, atS: Tables, useS: Uses, memM: Memory, mem: Memory, free: seq<nat>,
                at: Tables, use: Uses, r: nat, v: nat, f: nat, perm: Flags, page: Page)
    requires Ok(lo, hi, mem, free, at, use) && f !in useS && Same(memS, atS, memM, atS) && KeepsData(memS, memM, useS)
    requires Grown(memM, atS, useS[f := Held], mem, at, use, r) && Maps(memM, atS, mem, at, r, v, 1, f, perm)
    requires v < MAXVPN && f in memM && memM[f] == page
    ensures Ok(lo, hi, mem, free, at, use[f := LeafAt(r, v)])
    ensures Added(memS, atS, useS, mem, at, use[f := LeafAt(r, v)], r, v, [Want(perm.(v := true), page)])
  {
    hide Flat, Ok;
    assert f in useS[f := Held] && use[f] == Held;
    assert Flat(mem, at, r, v) == MakePte(f, perm);
    Adopt(lo, hi, mem, free, at, use, r, v, f);
  }

  lemma AddedMore(memS: Memory, atS: Tables, useS: Uses, mem: Memory, at: Tables, use: Uses, mem': Memory, at': Tables,
                  use': Uses, r: nat, v: nat, want: seq<Want>, more: seq<Want>)
    requires Added(memS, atS, useS, mem, at, use, r, v, want)
             && Added(mem, at, use, mem', at', use', r, v + |want|, more)
    requires v + |want| <= MAXVPN
    ensures Added(memS, atS, useS, mem', at', use', r, v, want + more)
  {
    hide Flat, NewUse;
    var all := want + more;
    forall i: nat | i < |all| ensures UserPage(mem', at', use', r, v + i, all[i]) {
      if i < |want| {
        assert UserPage(mem, at, use, r, v + i, want[i]);
      } else {
        assert UserPage(mem', at', use', r, v + |want| + (i - |want|), more[i - |want|]);
      }
    }
    forall f | f in use' && f !in useS ensures NewUse(use'[f], r, v, |all|) {
      NewUseMore(use'[f], r, v, |want|, |more|);
    }
  }

  lemma NewUseMore(u: Use, r: nat, v: nat, n: nat, m: nat)
    ensures NewUse(u, r, v, n) || NewUse(u, r, v + n, m) ==> NewUse(u, r, v, n + m)
  {
  }

  /** Pages that lead to memory. */
  ghost predicate AllLeaves(want: seq<Want>) {
    forall i | 0 <= i < |want| :: want[i].flags.v && (want[i].flags.r || want[i].flags.w || want[i].flags.x)
  }

  lemma AddedOwned(memS: Memory, atS: Tables, useS: Uses, mem: Memory, at: Tables, use: Uses, r: nat, v: nat,
                   want: seq<Want>)
    requires Added(memS, atS, useS, mem, at, use, r, v, want) && AllLeaves(want)
    ensures Owned(mem, at, use, r, v, |want|)
    ensures forall v': nat | v <= v' < v + |want| :: Flat(mem, at, r, v').V() && Flat(mem, at, r, v').Leaf()
  {
    hide Flat;
    forall v': nat | v <= v' < v + |want|
      ensures var e := Flat(mem, at, r, v'); e.V() && e.Leaf() && e.frame in use && use[e.frame] == LeafAt(r, v')
    {
      assert UserPage(mem, at, use, r, v + (v' - v), want[v' - v]);
    }
  }

  /** Removing what was added leaves only new tables, which map nothing. */
  lemma AddedUndone(memS: Memory, atS: Tables, useS: Uses, mem: Memory, at: Tables, use: Uses, mem': Memory, use': Uses,
                    r: nat, v: nat, want: seq<Want>)
    requires Added(memS, atS, useS, mem, at, use, r, v, want) && Unmapping(mem, at, use, mem', use', r, v, |want|, true)
    requires forall v': nat | v <= v' < v + |want| && v' < MAXVPN :: Flat(memS, atS, r, v') == NONE
    requires forall f | f in useS :: !(useS[f].LeafAt? && useS[f].root == r && v <= useS[f].v < v + |want|)
    ensures Added(memS, atS, useS, mem', at, use', r, v, [])
  {
    hide Flat;
  }

  /** Pages `a` to `b` of the tree `r` lead to user memory of their own. */
  ghost predicate User(mem: Memory, at: Tables, use: Uses, r: nat, a: nat, b: nat) {
    (a < b ==> b <= MAXVPN) && forall v: nat | a <= v < b :: UserLeaf(Flat(mem, at, r, v), use, r, v)
  }

  predicate UserLeaf(e: Pte, use: Uses, r: nat, v: nat) {
    e.V() && e.Leaf() && e.frame in use && use[e.frame] == LeafAt(r, v)
  }

  /** Nothing is mapped at pages `a` to `b` of the tree `r`. */
  ghost predicate Unmapped(mem: Memory, at: Tables, r: nat, a: nat, b: nat) {
    (a < b ==> b <= MAXVPN) && forall v: nat | a <= v < b :: Flat(mem, at, r, v) == NONE
  }

  lemma UserOwned(mem: Memory, at: Tables, use: Uses, r: nat, a: nat, b: nat)
    requires User(mem, at, use, r, a, b) && a <= b
    ensures Owned(mem, at, use, r, a, b - a)
  {
    hide Flat;
  }

  lemma UserAt(mem: Memory, at: Tables, use: Uses, r: nat, a: nat, b: nat, v: nat)
    requires User(mem, at, use, r, a, b) && a <= v < b
    ensures v < MAXVPN && UserLeaf(Flat(mem, at, r, v), use, r, v)
  {
    hide Flat;
  }

  lemma AddedUser(memS: Memory, atS: Tables, useS: Uses, mem: Memory, at: Tables, use: Uses, r: nat, v: nat,
                  want: seq<Want>)
    requires Added(memS, atS, useS, mem, at, use, r, v, want) && AllLeaves(want) && v + |want| <= MAXVPN
    ensures User(mem, at, use, r, v, v + |want|)
  {
    hide Flat, Added;
    AddedOwned(memS, atS, useS, mem, at, use, r, v, want);
    forall v': nat | v <= v' < v + |want| ensures UserLeaf(Flat(mem, at, r, v'), use, r, v') {
    }
  }

  /** No page of user memory is mapped where nothing is mapped. */
  lemma NoLeaves(mem: Memory, at: Tables, use: Uses, r: nat, a: nat, b: nat)
    requires LeavesOk(mem, at, use) && Unmapped(mem, at, r, a, b)
    ensures forall f | f in use :: !(use[f].LeafAt? && use[f].root == r && a <= use[f].v < b)
  {
    hide Flat;
    forall f | f in use && use[f].LeafAt? && use[f].root == r ensures !(a <= use[f].v < b) {
      assert LeafOk(mem, at, f, r, use[f].v);
    }
  }

  /** Undoing the pages added where nothing was mapped leaves only new tables. */
  lemma Undone(lo: nat, hi: nat, memS: Memory, freeS: seq<nat>, atS: Tables, useS: Uses, mem: Memory, at: Tables,
               use: Uses, mem': Memory, use': Uses, r: nat, v: nat, want: seq<Want>)
    requires Ok(lo, hi, memS, freeS, atS, useS) && Unmapped(memS, atS, r, v, v + |want|)
    requires Added(memS, atS, useS, mem, at, use, r, v, want) && Unmapping(mem, at, use, mem', use', r, v, |want|, true)
    ensures Added(memS, atS, useS, mem', at, use', r, v, [])
  {
    hide Flat, Added, Unmapping;
    NoLeaves(memS, atS, useS, r, v, v + |want|);
    AddedUndone(memS, atS, useS, mem, at, use, mem', use', r, v, want);
  }

  /** There are no more pages of user memory than pages of memory. */
  lemma LeafCount(lo: nat, hi: nat, mem: Memory, free: seq<nat>, at: Tables, use: Uses, r: nat, n: nat)
    returns (pages: set<nat>)
    requires Ok(lo, hi, mem, free, at, use) && User(mem, at, use, r, 0, n) && lo <= hi
    ensures |pages| == n && n <= hi - lo
    ensures forall f | f in pages :: lo <= f < hi && f in use && use[f].LeafAt? && use[f].root == r && use[f].v < n
  {
    hide Flat, TreeOk, LeavesOk;
    if n == 0 {
      pages := {};
    } else {
      var rest := LeafCount(lo, hi, mem, free, at, use, r, n - 1);
      UserAt(mem, at, use, r, 0, n, n - 1);
      pages := rest + {Flat(mem, at, r, n - 1).frame};
    }
    RangeBound(lo, hi, pages);
  }

  lemma RangeBound(lo: nat, hi: nat, s: set<nat>)
    requires forall f | f in s :: lo <= f < hi
    ensures s == {} || |s| <= hi - lo
    decreases hi - lo
  {
    if s != {} {
      var f :| f in s;
      RangeBound(lo, hi - 1, s - {hi - 1});
      assert s <= (s - {hi - 1}) + {hi - 1};
      assert |s| <= |s - {hi - 1}| + 1;
    }
  }

  /** Growing user memory never reaches a page that is mapped already: memory runs out before. */
  lemma Room(lo: nat, hi: nat, memS: Memory, atS: Tables, useS: Uses, mem: Memory, free: seq<nat>, at: Tables,
             use: Uses, r: nat, v: nat, want: seq<Want>)
    requires Ok(lo, hi, mem, free, at, use) && Added(memS, atS, useS, mem, at, use, r, v, want) && AllLeaves(want)
    requires User(memS, atS, useS, r, 0, v) && lo <= hi && Unmapped(memS, atS, r, v, hi - lo + 1)
             && v + |want| <= hi - lo + 1
    ensures v + |want| <= hi - lo && v + |want| < MAXVPN && Flat(mem, at, r, v + |want|) == NONE
    ensures User(mem, at, use, r, 0, v + |want|)
  {
    hide Flat, Ok;
    assert |want| > 0 ==> Flat(memS, atS, r, v + |want| - 1) == NONE;
    AddedOwned(memS, atS, useS, mem, at, use, r, v, want);
    forall v': nat | v' < v + |want| ensures UserLeaf(Flat(mem, at, r, v'), use, r, v') {
      if v' < v {
        UserAt(memS, atS, useS, r, 0, v, v');
      } else {
        assert Flat(memS, atS, r, v') == NONE;
      }
    }
    var pages := LeafCount(lo, hi, mem, free, at, use, r, v + |want|);
    assert Flat(memS, atS, r, v + |want|) == NONE;
  }

  lemma UnmappedPart(mem: Memory, at: Tables, r: nat, a: nat, b: nat, c: nat)
    requires Unmapped(mem, at, r, a, b) && c <= b
    ensures Unmapped(mem, at, r, a, c)
  {
    hide Flat;
  }

  // ---------- bytes ----------

  /** Where a process can reach memory, it is user memory of its own. */
  ghost predicate Private(mem: Memory, at: Tables, use: Uses) {
    forall r: nat, v: nat | v < MAXVPN :: Reaches(Flat(mem, at, r, v), use, r, v)
  }

  predicate Reaches(e: Pte, use: Uses, r: nat, v: nat) {
    e.V() && e.flags.u ==> e.frame in use && use[e.frame] == LeafAt(r, v)
  }

  /** The page that walkaddr finds for page `v`, if a process may use it. */
  ghost predicate Accessible(mem: Memory, at: Tables, r: nat, v: nat) {
    v < MAXVPN && Flat(mem, at, r, v).V() && Flat(mem, at, r, v).flags.u
  }

  /** The byte at virtual address `a`, -1 where there is none. */
  ghost function ByteAt(mem: Memory, at: Tables, r: nat, a: nat): (x: int) {
    var f := Flat(mem, at, r, a / PGSIZE).frame;
    if Accessible(mem, at, r, a / PGSIZE) && IsData(mem, f) then mem[f].bytes[a % PGSIZE] else -1
  }

  /** A load in user mode: byte `va % 4096` of the page the hardware finds, if the process may read it. */
  function Load(mem: Memory, r: nat, va: nat): (x: int) {
    var e := Translate(mem, r, va);
    if e.V() && e.flags.r && e.flags.u && IsData(mem, e.frame) then mem[e.frame].bytes[va % 0x1000] else -1
  }

  /** What a process loads is what the kernel's copies read and write. */
  lemma LoadIsByteAt(mem: Memory, at: Tables, use: Uses, r: nat, va: nat)
    requires TreeOk(mem, at, use) && va < MAXVA && Pos(r, 2, 0) in at
    ensures Load(mem, r, va) == if Flat(mem, at, r, va / PGSIZE).flags.r then ByteAt(mem, at, r, va) else -1
  {
    TranslateIsFlat(mem, at, use, r, va);
  }

  function Patch(page: Page, o: nat, s: seq<Byte>): (p: Page)
    requires page.Data? && |page.bytes| == PGSIZE && o + |s| <= PGSIZE
    ensures p.Data? && |p.bytes| == PGSIZE
    ensures forall x | 0 <= x < PGSIZE :: p.bytes[x] == if o <= x < o + |s| then s[x - o] else page.bytes[x]
  {
    Data(page.bytes[..o] + s + page.bytes[o + |s|..])
  }

  /** The bytes `s` are at address `a` of the tree `r`; every other byte of every tree is as it was. */
  ghost predicate Poked(mem: Memory, at: Tables, mem': Memory, r: nat, a: nat, s: seq<Byte>) {
    forall r': nat, x: nat ::
      ByteAt(mem', at, r', x) == if r' == r && a <= x < a + |s| then s[x - a] as int else ByteAt(mem, at, r', x)
  }

  /** Storing into a page of user memory. */
  lemma Poke(lo: nat, hi: nat, mem: Memory, free: seq<nat>, at: Tables, use: Uses, r: nat, a: nat, s: seq<Byte>, f: nat,
             mem': Memory)
    requires Ok(lo, hi, mem, free, at, use) && Private(mem, at, use) && a % PGSIZE + |s| <= PGSIZE
    requires Accessible(mem, at, r, a / PGSIZE) && f == Flat(mem, at, r, a / PGSIZE).frame
    requires IsData(mem, f) && mem' == mem[f := Patch(mem[f], a % PGSIZE, s)]
    ensures Ok(lo, hi, mem', free, at, use) && Private(mem', at, use) && Poked(mem, at, mem', r, a, s)
    ensures Same(mem, at, mem', at)
  {
    hide Flat, TreeOk, Partition, Patch;
    var v := a / PGSIZE;
    assert Reaches(Flat(mem, at, r, v), use, r, v);
    ForgetLeaf(mem, at, use, f, mem'[f]);
    assert forall g | g in use && use[g].LeafAt? :: LeafOk(mem, at, g, use[g].root, use[g].v);
    forall r': nat, x: nat
      ensures ByteAt(mem', at, r', x) == if r' == r && a <= x < a + |s| then s[x - a] as int else ByteAt(mem, at, r', x)
    {
      PokeByte(mem, at, use, r, a, s, f, mem', r', x);
    }
  }

  lemma PokeByte(mem: Memory, at: Tables, use: Uses, r: nat, a: nat, s: seq<Byte>, f: nat, mem': Memory, r': nat,
                 x: nat)
    requires Private(mem, at, use) && a % PGSIZE + |s| <= PGSIZE && Same(mem, at, mem', at)
    requires Accessible(mem, at, r, a / PGSIZE) && f == Flat(mem, at, r, a / PGSIZE).frame
    requires IsData(mem, f) && mem' == mem[f := Patch(mem[f], a % PGSIZE, s)]
    ensures ByteAt(mem', at, r', x) == if r' == r && a <= x < a + |s| then s[x - a] as int else ByteAt(mem, at, r', x)
  {
    hide Flat, Patch;
    var v, w := a / PGSIZE, x / PGSIZE;
    assert a == v * PGSIZE + a % PGSIZE && x == w * PGSIZE + x % PGSIZE;
    assert Reaches(Flat(mem, at, r, v), use, r, v);
    assert w < MAXVPN ==> Reaches(Flat(mem, at, r', w), use, r', w);
  }
}
