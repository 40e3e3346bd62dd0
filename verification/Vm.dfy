/** kernel/vm.c and the page allocator of kernel/kalloc.c, in place on physical memory. */
module VirtualMemory {
  import opened Prelude
  import opened PageTables
  import opened PageTableFree

  /** Addresses are 64 bits wide. */
  const SPACE := 0x1_0000_0000_0000_0000

  /** The pages that mappages' loop goes through, from that of the first byte to that of the last.  If the last
      one is before the first, the loop does not end in the address space: the number given is more pages than
      there are. */
  function PageCount(va: nat, size: nat): (n: nat)
    requires va < SPACE && size < SPACE
    ensures n > 0
  {
    var last := (va + size + (SPACE - 1)) % SPACE / PGSIZE;
    if last >= va / PGSIZE then last - va / PGSIZE + 1 else MAXVPN + 1
  }

  /** Page `v` holds one of the bytes. */
  predicate Touches(va: nat, size: nat, v: nat) {
    va < (v + 1) * PGSIZE && v * PGSIZE < va + size
  }

  /** The loop goes through exactly the pages that hold the bytes, if there are any and they do not run over the
      end of the address space. */
  lemma PagesTouched(va: nat, size: nat, v: nat)
    requires 0 < size && va + size <= SPACE && size < SPACE
    ensures va / PGSIZE <= v < va / PGSIZE + PageCount(va, size) <==> Touches(va, size, v)
  {
    var x := va + size - 1;
    assert va + size + (SPACE - 1) == x + SPACE;
    assert (x + SPACE) % SPACE == x;
    var a, last := va / PGSIZE, x / PGSIZE;
    assert a * PGSIZE <= va < (a + 1) * PGSIZE && last * PGSIZE <= x < (last + 1) * PGSIZE;
  }

  /** For no bytes at all it goes through one page, or runs out of the address space. */
  lemma NoBytes(va: nat)
    requires va < SPACE
    ensures if va % PGSIZE != 0 then PageCount(va, 0) == 1 else PageCount(va, 0) > MAXVPN
  {
    if va > 0 {
      assert (va + (SPACE - 1)) % SPACE == va - 1;
    }
  }

  /** What freed and freshly allocated pages are filled with. */
  function Junk(x: Byte): (p: Page) {
    Data(seq(PGSIZE, _ => x))
  }

  class PhysicalMemory {
    /** The pages from the end of the kernel to PHYSTOP. */
    const lo: nat
    const hi: nat
    var mem: Memory
    /** kmem.freelist, first page first. */
    var free: seq<nat>
    ghost var at: Tables
    ghost var use: Uses

    ghost predicate Valid()
      reads this
    {
      Ok(lo, hi, mem, free, at, use)
    }

    /** All pages from `lo` to `hi` are free. */
    constructor Kinit(lo: nat, hi: nat)
      requires lo <= hi
      ensures Valid() && this.lo == lo && this.hi == hi && |free| == hi - lo && at == map[] && use == map[]
    {
      this.lo, this.hi := lo, hi;
      mem, free, at, use := map[], [], map[], map[];
      new;
      var p := lo;
      while p < hi
        invariant lo <= p <= hi && |free| == p - lo && at == map[] && use == map[]
        invariant forall i | 0 <= i < |free| :: free[i] == p - 1 - i
      {
        var _ := Kfree(p);
        p := p + 1;
      }
      forall f: nat | lo <= f < hi ensures f in free {
        assert free[hi - 1 - f] == f;
      }
    }

    method Kalloc() returns (f: Option<nat>)
      requires Partition(lo, hi, free, use)
      modifies `mem, `free, `use
      ensures Partition(lo, hi, free, use)
      ensures f.None? ==> free == old(free) == [] && mem == old(mem) && use == old(use)
      ensures f.Some? ==> && old(free) != [] && f.value == old(free)[0] && free == old(free)[1..]
                          && mem == old(mem)[f.value := Junk(5)] && f.value !in old(use)
                          && use == old(use)[f.value := Held]
    {
      if free == [] {
        return None;
      }
      TookFirst(lo, hi, free, use, Held);
      var r := free[0];
      free := free[1..];
      mem := mem[r := Junk(5)];
      use := use[r := Held];
      return Some(r);
    }

    /** Panics for a page outside the allocator's range. */
    method Kfree(f: nat) returns (panic: bool)
      modifies `mem, `free, `use
      ensures panic <==> !(lo <= f < hi)
      ensures panic ==> free == old(free) && mem == old(mem) && use == old(use)
      ensures !panic ==> free == [f] + old(free) && mem == old(mem)[f := Junk(1)] && use == old(use) - {f}
      ensures old(f in use && Partition(lo, hi, free, use)) ==> Partition(lo, hi, free, use)
    {
      if f < lo || f >= hi {
        return true;
      }
      if f in use && Partition(lo, hi, free, use) {
        GaveBack(lo, hi, free, use, f);
      }
      mem := mem[f := Junk(1)];
      free := [f] + free;
      use := use - {f};
      return false;
    }

    /** The slot of the entry for page `v`, making the tables on the way there if `alloc`.  No
        translation changes; without memory for a table there is no slot. */
    method Walk(r: nat, v: nat, alloc: bool) returns (slot: Option<(nat, nat)>)
      requires Valid() && v < MAXVPN && Pos(r, 2, 0) in at
      modifies this
      ensures Valid() && Same(old(mem), old(at), mem, at) && Grown(old(mem), old(at), old(use), mem, at, use, r)
      ensures slot.Some? ==> Node(r, v, 0) in at && slot.value == (at[Node(r, v, 0)], Index(v, 0))
                             && slot.value.0 in mem && mem[slot.value.0].Table? && |mem[slot.value.0].ptes| == ENTRIES
      ensures slot.Some? ==> LeadsTo(mem, r, v * PGSIZE, slot.value.0) && slot.value.1 == Vpn(v * PGSIZE, 0)
      ensures |free| <= |old(free)| <= |free| + 2 && (slot.None? && alloc ==> |old(free)| < 2)
      ensures !alloc ==> mem == old(mem) && free == old(free) && at == old(at) && use == old(use)
                         && (slot.Some? <==> Node(r, v, 0) in at)
    {
      hide Ok, Same, Flat, Partition, NodeOk, TreeOk, Grown, LeadsTo;
      var level, t := 2, r;
      WalkStart(lo, hi, mem, free, at, use, r);
      while level > 0
        invariant level <= 2 && Valid() && Node(r, v, level) in at && at[Node(r, v, level)] == t && Pos(r, 2, 0) in at
        invariant |free| <= |old(free)| <= |free| + (2 - level)
        invariant Same(old(mem), old(at), mem, at) && Grown(old(mem), old(at), old(use), mem, at, use, r)
        invariant !alloc ==> mem == old(mem) && free == old(free) && at == old(at) && use == old(use)
      {
        var i := Index(v, level);
        WalkStep(lo, hi, mem, free, at, use, r, v, level);
        var pte := mem[t].ptes[i];
        if pte.V() {
          t := pte.frame;
        } else {
          if !alloc {
            return None;
          }
          ghost var mem0, free0, at0, use0 := mem, free, at, use;
          var f := Kalloc();
          if f.None? {
            return None;
          }
          mem := mem[f.value := Table(ZEROES)];
          mem := mem[t := Table(mem[t].ptes[i := Link(f.value)])];
          at := at[Node(r, v, level - 1) := f.value];
          use := use[f.value := TableAt(Node(r, v, level - 1))];
          WalkAdd(lo, hi, old(mem), old(at), old(use), mem0, free0, at0, use0, mem, at, use, r, v, level, f.value);
          t := f.value;
        }
        level := level - 1;
      }
      WalkStep(lo, hi, mem, free, at, use, r, v, 0);
      WalkLeads(lo, hi, mem, free, at, use, r, v);
      return Some((t, Index(v, 0)));
    }

    /** Maps `n` pages from `v` on to the pages from `f` on, as far as memory for tables lasts. */
    method MapRun(r: nat, v: nat, n: nat, f: nat, perm: Flags) returns (res: MapResult, ghost done: nat)
      requires Valid() && Pos(r, 2, 0) in at && n > 0
      modifies this
      ensures Valid() && Grown(old(mem), old(at), old(use), mem, at, use, r)
      ensures done <= n && Maps(old(mem), old(at), mem, at, r, v, done, f, perm)
      ensures res.Mapped? <==> done == n
      ensures |free| <= |old(free)| <= |free| + 2 * n && (res.NoMemory? ==> |old(free)| < 2 * n)
      ensures res.Panic? ==> v + done >= MAXVPN || Flat(old(mem), old(at), r, v + done).V()
    {
      hide Ok, Same, Flat, Maps, Grown;
      var a, last, pa := v, v + n - 1, f;
      done := 0;
      MapStart(lo, hi, mem, free, at, use, r, v, f, perm);
      while true
        invariant Valid() && done < n && last == v + n - 1 && a == v + done && pa == f + done && Pos(r, 2, 0) in at
        invariant |free| <= |old(free)| <= |free| + 2 * done
        invariant Grown(old(mem), old(at), old(use), mem, at, use, r)
        invariant Maps(old(mem), old(at), mem, at, r, v, done, f, perm)
        decreases n - done
      {
        if a >= MAXVPN {
          return Panic, done;
        }
        ghost var mem0, at0, use0 := mem, at, use;
        var slot := Walk(r, a, true);
        MapWalked(old(mem), old(at), old(use), mem0, at0, use0, mem, at, use, r, v, done, f, perm);
        if slot.None? {
          return NoMemory, done;
        }
        var t, i := slot.value.0, slot.value.1;
        FlatSlot(mem, at, r, a);
        if mem[t].ptes[i].V() {
          MapsAt(old(mem), old(at), mem, at, r, v, done, f, perm);
          return Panic, done;
        }
        ghost var mem1 := mem;
        mem := mem[t := Table(mem[t].ptes[i := MakePte(pa, perm)])];
        MapStored(lo, hi, old(mem), old(at), old(use), mem1, free, at, use, mem, r, v, done, f, perm);
        done := done + 1;
        if a == last {
          break;
        }
        a, pa := a + 1, pa + 1;
      }
      res := Mapped;
    }

    /** mappages: maps the pages of `size` bytes at the address `va` to those from the address `pa` on. */
    method MapPages(r: nat, va: nat, size: nat, pa: nat, perm: Flags) returns (res: MapResult, ghost done: nat)
      requires Valid() && Pos(r, 2, 0) in at && va < SPACE && size < SPACE
      modifies this
      ensures Valid() && Grown(old(mem), old(at), old(use), mem, at, use, r)
      ensures done <= PageCount(va, size) && Maps(old(mem), old(at), mem, at, r, va / PGSIZE, done, pa / PGSIZE, perm)
      ensures res.Mapped? <==> done == PageCount(va, size)
      ensures res.NoMemory? ==> |old(free)| < 2 * PageCount(va, size)
      ensures res.Panic? ==> va / PGSIZE + done >= MAXVPN || Flat(old(mem), old(at), r, va / PGSIZE + done).V()
    {
      hide Ok, Flat, Maps, Grown;
      res, done := MapRun(r, va / PGSIZE, PageCount(va, size), pa / PGSIZE, perm);
    }

    /** Removes `n` mappings from page `v` on, giving their pages back if `doFree`.  Panics at the
        first page that is not mapped or does not lead to memory. */
    method UvmUnmap(r: nat, v: nat, n: nat, doFree: bool) returns (panic: bool, ghost done: nat)
      requires Valid() && Pos(r, 2, 0) in at
      requires doFree ==> Owned(mem, at, use, r, v, n)
      requires !doFree ==> forall f | f in use && use[f].LeafAt? && use[f].root == r :: !(v <= use[f].v < v + n)
      modifies this
      ensures Valid() && at == old(at) && Unmapping(old(mem), at, old(use), mem, use, r, v, done, doFree)
      ensures done <= n && (panic <==> done < n)
      ensures forall x: nat | v <= x < v + done :: Removable(old(mem), at, r, x)
      ensures panic ==> !Removable(old(mem), at, r, v + done)
    {
      hide Ok, Flat, Unmapping, Owned, Partition, Same, Grown;
      var a := v;
      done := 0;
      UnmapStart(mem, at, use, r, v, doFree);
      while a < v + n
        invariant Valid() && at == old(at) && done <= n && a == v + done
        invariant Unmapping(old(mem), at, old(use), mem, use, r, v, done, doFree)
        invariant !doFree ==> use == old(use)
        invariant forall x: nat | v <= x < v + done :: Removable(old(mem), at, r, x)
      {
        if a >= MAXVPN {
          return true, done;
        }
        UnmapFinds(old(mem), at, old(use), mem, use, r, v, n, done, doFree);
        ghost var mem0, free0, use0 := mem, free, use;
        FlatMissing(mem, at, r, a);
        var slot := Walk(r, a, false);
        if slot.None? {
          return true, done;
        }
        var t, i := slot.value.0, slot.value.1;
        FlatSlot(mem, at, r, a);
        var pte := mem[t].ptes[i];
        if !pte.V() {
          return true, done;
        }
        if pte.OnlyV() {
          return true, done;
        }
        if doFree {
          InUse(lo, hi, mem, free, at, use, pte.frame, t);
          var _ := Kfree(pte.frame);
        }
        mem := mem[t := Table(mem[t].ptes[i := NONE])];
        if doFree {
          UnmapStep(lo, hi, old(mem), old(use), mem0, free0, at, use0, r, v, done, pte.frame, Junk(1), free, mem);
        } else {
          UnmapKeep(lo, hi, old(mem), old(use), mem0, free0, at, use0, r, v, done, mem);
        }
        a, done := a + 1, done + 1;
      }
      panic := false;
    }

    /** One page of user memory with these contents at page `v`, or nothing but tables.  (The common
        part of uvmalloc's and uvmcopy's loops.) */
    method AddPage(r: nat, v: nat, perm: Flags, page: Page) returns (ok: bool)
      requires Valid() && Pos(r, 2, 0) in at && v < MAXVPN && Flat(mem, at, r, v) == NONE
      requires page.Data? && |page.bytes| == PGSIZE
      modifies this
      ensures Valid()
      ensures Added(old(mem), old(at), old(use), mem, at, use, r, v, if ok then [Want(perm.(v := true), page)] else [])
      ensures if ok then |old(free)| <= |free| + 3 else |old(free)| < 3
    {
      hide Ok, Same, Flat, Maps, Grown, Added, Partition, KeepsData;
      AddedNone(mem, at, use, r, v);
      Parts(lo, hi, mem, free, at, use);
      var f := Kalloc();
      if f.None? {
        return false;
      }
      mem := mem[f.value := page];
      assert mem == old(mem)[f.value := page];
      Holding(lo, hi, old(mem), old(free), old(at), old(use), f.value, page, mem);
      KeepsNew(old(mem), mem, old(use), f.value, page);
      ghost var memM := mem;
      var res, done := MapRun(r, v, 1, f.value, perm);
      SameNone(old(mem), old(at), memM, r, v);
      assert !res.Panic?;
      if !res.Mapped? {
        Parts(lo, hi, mem, free, at, use);
        ghost var mem1, free1, use1 := mem, free, use;
        StillHeld(memM, old(at), old(use), mem, at, use, r, f.value);
        var _ := Kfree(f.value);
        assert use == use1 - {f.value};
        assert Partition(lo, hi, free, use1 - {f.value});
        AddFailed(lo, hi, old(mem), old(at), old(use), memM, mem1, free1, at, use1, r, v, f.value, perm, free, Junk(1));
        return false;
      }
      AddDone(lo, hi, old(mem), old(at), old(use), memM, mem, free, at, use, r, v, f.value, perm, page);
      use := use[f.value := LeafAt(r, v)];
      return true;
    }

    /** Shrinks user memory from `oldsz` to `newsz` bytes, giving back exactly the pages between. */
    method UvmDealloc(r: nat, oldsz: nat, newsz: nat) returns (size: nat)
      requires Valid() && Pos(r, 2, 0) in at && User(mem, at, use, r, Pages(newsz), Pages(oldsz))
      modifies this
      ensures Valid() && at == old(at) && size == if newsz >= oldsz then oldsz else newsz
      ensures Unmapping(old(mem), at, old(use), mem, use, r, Pages(newsz),
                        if newsz >= oldsz then 0 else Pages(oldsz) - Pages(newsz), true)
    {
      hide Ok, Flat, Unmapping, Owned, Partition, User;
      UnmapStart(mem, at, use, r, Pages(newsz), true);
      if newsz >= oldsz {
        return oldsz;
      }
      if Pages(newsz) < Pages(oldsz) {
        UserOwned(mem, at, use, r, Pages(newsz), Pages(oldsz));
        var panic, done := UvmUnmap(r, Pages(newsz), Pages(oldsz) - Pages(newsz), true);
        if panic {
          UserAt(old(mem), at, old(use), r, Pages(newsz), Pages(oldsz), Pages(newsz) + done);
          assert false;
        }
      }
      return newsz;
    }

    /** Grows user memory from `oldsz` to `newsz` bytes with zeroed pages.  When memory runs out, every
        page taken is given back and no mapping is different. */
    method UvmAlloc(r: nat, oldsz: nat, newsz: nat) returns (size: nat, ghost ok: bool)
      requires Valid() && Pos(r, 2, 0) in at && User(mem, at, use, r, 0, Pages(oldsz)) && lo <= hi
      requires Unmapped(mem, at, r, Pages(oldsz), hi - lo + 1)
      modifies this
      ensures Valid() && size == if newsz < oldsz then oldsz else if ok then newsz else 0
      ensures ok && newsz >= oldsz ==> User(mem, at, use, r, 0, Pages(newsz))
      ensures !ok ==> newsz > oldsz && |old(free)| < 3 * (Pages(newsz) - Pages(oldsz))
      ensures ok ==> |old(free)| <= |free| + if newsz < oldsz then 0 else 3 * (Pages(newsz) - Pages(oldsz))
      ensures Added(old(mem), old(at), old(use), mem, at, use, r, Pages(oldsz),
                    if ok && newsz >= oldsz then Zeroes(Pages(newsz) - Pages(oldsz)) else [])
      ensures ok ==> forall x: nat | Pages(oldsz) * PGSIZE <= x < newsz :: FreshByte(mem, at, r, x)
    {
      hide Ok, Flat, Unmapping, Added, User, Unmapped, Zeroes, AllLeaves, FreshByte;
      AddedNone(mem, at, use, r, Pages(oldsz));
      PagesIs(oldsz);
      if newsz < oldsz {
        return oldsz, true;
      }
      var first, a := Pages(oldsz), Pages(oldsz);
      ghost var want := Zeroes(0);
      ZeroesMore(0);
      UserLimit(lo, hi, mem, free, at, use, r, first);
      Room(lo, hi, mem, at, use, mem, free, at, use, r, first, want);
      while a < Pages(newsz)
        invariant Valid() && first <= a <= Pages(newsz) && a <= hi - lo && Pos(r, 2, 0) in at
        invariant want == Zeroes(a - first) && |want| == a - first && AllLeaves(want)
        invariant Added(old(mem), old(at), old(use), mem, at, use, r, first, want) && User(mem, at, use, r, 0, a)
        invariant a < MAXVPN && Flat(mem, at, r, a) == NONE
        invariant |old(free)| <= |free| + 3 * (a - first)
      {
        ghost var mem0, at0, use0 := mem, at, use;
        var got := AddPage(r, a, ZeroWant().flags, ZeroWant().page);
        if !got {
          AddedMore(old(mem), old(at), old(use), mem0, at0, use0, mem, at, use, r, first, want, []);
          assert want + [] == want;
          AddedUser(old(mem), old(at), old(use), mem, at, use, r, first, want);
          AddedRoot(old(mem), old(at), old(use), mem, at, use, r, first, want);
          ghost var mem1, at1, use1 := mem, at, use;
          var _ := UvmDealloc(r, a * PGSIZE, first * PGSIZE);
          UnmappedPart(old(mem), old(at), r, first, hi - lo + 1, a);
          Undone(lo, hi, old(mem), old(free), old(at), old(use), mem1, at1, use1, mem, use, r, first, want);
          return 0, false;
        }
        AddedMore(old(mem), old(at), old(use), mem0, at0, use0, mem, at, use, r, first, want, [ZeroWant()]);
        ZeroesMore(a - first);
        want := want + [ZeroWant()];
        a := a + 1;
        AddedRoot(old(mem), old(at), old(use), mem, at, use, r, first, want);
        Room(lo, hi, old(mem), old(at), old(use), mem, free, at, use, r, first, want);
      }
      if first <= Pages(newsz) {
        FreshBytes(old(mem), old(at), old(use), mem, at, use, r, first, newsz);
      }
      return newsz, true;
    }

    /** Gives back the table `t` at `p` and every table below it, each once.  The tables must map
        nothing any more. */
    method FreeWalk(t: nat, ghost p: Pos)
      requires Valid() && p in at && at[p] == t && Bare(mem, at, p)
      modifies this
      ensures Partition(lo, hi, free, use) && Removed(old(mem), old(at), old(use), mem, at, use, p)
      decreases p.level
    {
      hide Partition, Removed, Pruned, Bare, LeavesOk, TreeOk;
      var i := 0;
      PruneStart(mem, at, use, p, t);
      while i < ENTRIES
        invariant Valid() && i <= ENTRIES && p in at && at[p] == t && Bare(mem, at, p)
        invariant Pruned(old(mem), old(at), old(use), mem, at, use, p, i, t)
      {
        PruneEntry(mem, at, use, p, i);
        var pte := mem[t].ptes[i];
        if pte.V() && !pte.Leaf() {
          ghost var mem0, free0, at0, use0 := mem, free, at, use;
          TablesUsed(mem, at, use);
          FreeWalk(pte.frame, Child(p, i));
          KeptTable(mem0, at0, use0, mem, at, use, p, i);
          ghost var mem1 := mem;
          mem := mem[t := Table(mem[t].ptes[i := NONE])];
          SlotCleared(lo, hi, mem0, free0, at0, use0, p, i, mem1, free, at, use, mem);
          PruneStep(old(mem), old(at), old(use), mem0, at0, use0, mem1, at, use, mem, p, i);
        } else if pte.V() {
          assert false;
        } else {
          PruneSkip(old(mem), old(at), old(use), mem, at, use, p, i);
        }
        i := i + 1;
      }
      TablesUsed(mem, at, use);
      PruneEnd(old(mem), old(at), old(use), mem, at, use, p, t, Junk(1));
      InRange(lo, hi, free, use, t);
      var _ := Kfree(t);
      at := at - {p};
    }

    /** An empty page table, named by its root page. */
    method UvmCreate() returns (r: Option<nat>)
      requires Valid()
      modifies this
      ensures Valid()
      ensures r.None? ==> mem == old(mem) && free == old(free) == [] && at == old(at) && use == old(use)
      ensures r.Some? ==> && Pos(r.value, 2, 0) in at && Pos(r.value, 2, 0) !in old(at) && old(free) != []
                          && free == old(free)[1..]
                          && (forall r': nat, v: nat :: Flat(mem, at, r', v) == Flat(old(mem), old(at), r', v))
                          && r.value !in old(use) && use == old(use)[r.value := TableAt(Pos(r.value, 2, 0))]
                          && at == old(at)[Pos(r.value, 2, 0) := r.value] && KeepsData(old(mem), mem, old(use))
    {
      hide Ok, Flat, Partition;
      Parts(lo, hi, mem, free, at, use);
      r := Kalloc();
      if r.Some? {
        mem := mem[r.value := Table(ZEROES)];
        assert mem == old(mem)[r.value := Table(ZEROES)];
        NewTree(lo, hi, old(mem), old(free), old(at), old(use), r.value, mem);
        at := at[Pos(r.value, 2, 0) := r.value];
        use := use[r.value := TableAt(Pos(r.value, 2, 0))];
        assert use == old(use)[r.value := TableAt(Pos(r.value, 2, 0))];
      }
    }

    /** Takes page `v` from the process, but not from the kernel. */
    method UvmClear(r: nat, v: nat) returns (panic: bool)
      requires Valid() && Pos(r, 2, 0) in at && v < MAXVPN
      modifies this
      ensures Valid() && at == old(at) && use == old(use) && free == old(free) && KeepsData(old(mem), mem, use)
      ensures panic ==> mem == old(mem) && !Flat(mem, at, r, v).V()
      ensures !panic ==> forall r': nat, v': nat | v' < MAXVPN ::
                           Flat(mem, at, r', v') == if r' == r && v' == v then NoUser(Flat(old(mem), at, r, v))
                                                    else Flat(old(mem), at, r', v')
      ensures !panic ==> var e, e' := Flat(old(mem), at, r, v), Flat(mem, at, r, v);
                         e'.frame == e.frame && !e'.flags.u && e.flags == e'.flags.(u := e.flags.u)
    {
      hide Ok, Flat, Same, Grown, KeepsData;
      FlatMissing(mem, at, r, v);
      var slot := Walk(r, v, false);
      if slot.None? {
        AllKept(mem, use);
        return true;
      }
      FlatSlot(mem, at, r, v);
      var t, i := slot.value.0, slot.value.1;
      mem := mem[t := Table(mem[t].ptes[i := NoUser(mem[t].ptes[i])])];
      FlagsChanged(lo, hi, old(mem), free, at, use, r, v, mem);
      return false;
    }

    /** Gives back all user memory and all tables of the tree `r`; every other tree is as it was. */
    method UvmFree(r: nat, sz: nat)
      requires Valid() && Pos(r, 2, 0) in at && User(mem, at, use, r, 0, Pages(sz))
      requires forall v: nat | Pages(sz) <= v < MAXVPN :: !Flat(mem, at, r, v).V()
      modifies this
      ensures Valid() && Without(old(mem), old(at), old(use), mem, at, use, r)
    {
      hide Ok, Flat, Partition, Unmapping, Owned, User, Removed, Bare, Without;
      UnmapStart(mem, at, use, r, 0, true);
      if sz > 0 {
        UserOwned(mem, at, use, r, 0, Pages(sz));
        var panic, done := UvmUnmap(r, 0, Pages(sz), true);
        if panic {
          UserAt(old(mem), at, old(use), r, 0, Pages(sz), done);
          assert false;
        }
      }
      ghost var mem1, free1, use1 := mem, free, use;
      AllUnmapped(lo, hi, old(mem), old(free), at, old(use), mem, free, use, r, Pages(sz));
      FreeWalk(r, Pos(r, 2, 0));
      TreeGone(lo, hi, mem1, free1, old(at), use1, r, mem, free, at, use);
      FreedTree(old(mem), old(at), old(use), mem1, use1, mem, at, use, r, Pages(sz));
    }

    /** Copies the first `sz` bytes of the tree `r` into the empty tree `s`, page by page.  When memory
        runs out, every page taken is given back. */
    method UvmCopy(r: nat, s: nat, sz: nat) returns (ok: bool)
      requires Valid() && Pos(r, 2, 0) in at && Pos(s, 2, 0) in at && r != s
      requires User(mem, at, use, r, 0, Pages(sz)) && Unmapped(mem, at, s, 0, Pages(sz))
      modifies this
      ensures Valid()
      ensures Added(old(mem), old(at), old(use), mem, at, use, s, 0, if ok then Copies(old(mem), old(at), r, Pages(sz))
                                                                     else [])
      ensures !ok ==> |old(free)| < 3 * Pages(sz)
      ensures ok ==> forall v: nat | v < Pages(sz) :: Flat(mem, at, s, v).flags == Flat(old(mem), old(at), r, v).flags
    {
      hide Ok, Flat, Unmapping, Added, User, Unmapped, Copies, AllLeaves;
      AddedNone(mem, at, use, s, 0);
      ghost var want := Copies(mem, at, r, 0);
      CopiesMore(mem, at, use, r, 0, Pages(sz));
      var i := 0;
      while i < Pages(sz)
        invariant Valid() && i <= Pages(sz) && Pos(r, 2, 0) in at && Pos(s, 2, 0) in at
        invariant want == Copies(old(mem), old(at), r, i) && |want| == i && AllLeaves(want)
        invariant Added(old(mem), old(at), old(use), mem, at, use, s, 0, want)
        invariant |old(free)| <= |free| + 3 * i
      {
        ghost var mem0, free0, at0, use0 := mem, free, at, use;
        CopyNext(lo, hi, old(mem), old(free), old(at), old(use), mem, free, at, use, r, s, want, Pages(sz));
        FlatMissing(mem, at, r, i);
        var slot := Walk(r, i, false);
        FlatSlot(mem, at, r, i);
        var pte := mem[slot.value.0].ptes[slot.value.1];
        var got := AddPage(s, i, pte.flags, mem[pte.frame]);
        if !got {
          AddedMore(old(mem), old(at), old(use), mem0, at0, use0, mem, at, use, s, 0, want, []);
          assert want + [] == want;
          AddedOwned(old(mem), old(at), old(use), mem, at, use, s, 0, want);
          AddedRoot(old(mem), old(at), old(use), mem, at, use, s, 0, want);
          ghost var mem1, at1, use1 := mem, at, use;
          var panic, done := UvmUnmap(s, 0, i, true);
          UserAt(old(mem), old(at), old(use), r, 0, Pages(sz), i);
          UnmappedPart(old(mem), old(at), s, 0, Pages(sz), i);
          Undone(lo, hi, old(mem), old(free), old(at), old(use), mem1, at1, use1, mem, use, s, 0, want);
          return false;
        }
        AddedMore(old(mem), old(at), old(use), mem0, at0, use0, mem, at, use, s, 0, want,
                  [WantAt(old(mem), old(at), r, i)]);
        CopiesMore(old(mem), old(at), old(use), r, i, Pages(sz));
        want := want + [WantAt(old(mem), old(at), r, i)];
        i := i + 1;
        AddedRoot(old(mem), old(at), old(use), mem, at, use, s, 0, want);
      }
      SameFlags(old(mem), old(at), old(use), mem, at, use, r, s, Pages(sz));
      return true;
    }

    /** The page that user page `v` leads to, if a process may use it. */
    method WalkAddr(r: nat, v: nat) returns (f: Option<nat>)
      requires Valid() && Pos(r, 2, 0) in at && Private(mem, at, use)
      modifies this
      ensures mem == old(mem) && free == old(free) && at == old(at) && use == old(use)
      ensures f.Some? <==> Accessible(mem, at, r, v)
      ensures f.Some? ==> f.value == Flat(mem, at, r, v).frame && IsData(mem, f.value)
    {
      hide Ok, Flat, Same, Grown, Private;
      if v >= MAXVPN {
        return None;
      }
      FlatMissing(mem, at, r, v);
      var slot := Walk(r, v, false);
      if slot.None? {
        return None;
      }
      FlatSlot(mem, at, r, v);
      var pte := mem[slot.value.0].ptes[slot.value.1];
      if !pte.V() {
        return None;
      }
      if !pte.flags.u {
        return None;
      }
      AccessibleData(lo, hi, mem, free, at, use, r, v);
      return Some(pte.frame);
    }

    /** Copies `src` to address `dst` of the tree `r`, up to the first page that the process cannot use. */
    method CopyOut(r: nat, dst: nat, src: seq<Byte>) returns (ok: bool, ghost done: nat)
      requires Valid() && Pos(r, 2, 0) in at && Private(mem, at, use)
      modifies this
      ensures Valid() && Private(mem, at, use) && at == old(at) && use == old(use) && free == old(free)
      ensures Same(old(mem), at, mem, at)
      ensures done <= |src| && Poked(old(mem), at, mem, r, dst, src[..done])
      ensures ok <==> done == |src|
      ensures !ok ==> !Accessible(old(mem), at, r, (dst + done) / PGSIZE)
    {
      hide Ok, Flat, Same, Private, Poked, Patch, Accessible;
      var d, s := dst, src;
      done := 0;
      PokedNone(mem, at, r, dst);
      while s != []
        invariant done <= |src| && s == src[done..] && d == dst + done && Valid() && Private(mem, at, use)
        invariant at == old(at) && use == old(use) && free == old(free) && Same(old(mem), at, mem, at)
        invariant Poked(old(mem), at, mem, r, dst, src[..done])
        decreases |s|
      {
        SameAccess(old(mem), mem, at, r, d / PGSIZE);
        var f := WalkAddr(r, d / PGSIZE);
        if f.None? {
          return false, done;
        }
        var n := PGSIZE - d % PGSIZE;
        if n > |s| {
          n := |s|;
        }
        ghost var mem0 := mem;
        mem := mem[f.value := Patch(mem[f.value], d % PGSIZE, s[..n])];
        Poke(lo, hi, mem0, free, at, use, r, d, s[..n], f.value, mem);
        PokedMore(old(mem), at, mem0, mem, r, dst, src, done, n);
        s, d, done := s[n..], d + n, done + n;
      }
      return true, done;
    }

    /** Copies `len` bytes from address `src` of the tree `r`, up to the first page that the process
        cannot use. */
    method CopyIn(r: nat, src: nat, len: nat) returns (ok: bool, dst: seq<Byte>)
      requires Valid() && Pos(r, 2, 0) in at && Private(mem, at, use)
      modifies this
      ensures mem == old(mem) && free == old(free) && at == old(at) && use == old(use)
      ensures |dst| <= len && (ok <==> |dst| == len)
      ensures forall i | 0 <= i < |dst| :: dst[i] as int == ByteAt(mem, at, r, src + i)
      ensures !ok ==> !Accessible(mem, at, r, (src + |dst|) / PGSIZE)
    {
      hide Ok, Flat, Private;
      dst := [];
      var s := src;
      while |dst| < len
        invariant |dst| <= len && s == src + |dst| && Valid() && Private(mem, at, use)
        invariant mem == old(mem) && free == old(free) && at == old(at) && use == old(use)
        invariant forall i | 0 <= i < |dst| :: dst[i] as int == ByteAt(mem, at, r, src + i)
        decreases len - |dst|
      {
        var f := WalkAddr(r, s / PGSIZE);
        if f.None? {
          return false, dst;
        }
        var n := PGSIZE - s % PGSIZE;
        if n > len - |dst| {
          n := len - |dst|;
        }
        Peeked(mem, at, r, src, dst, n, f.value);
        dst := dst + mem[f.value].bytes[s % PGSIZE..s % PGSIZE + n];
        s := s + n;
      }
      return true, dst;
    }

    /** What copyout stored, copyin finds. */
    method CopyOutIn(r: nat, a: nat, src: seq<Byte>) returns (ok: bool, dst: seq<Byte>)
      requires Valid() && Pos(r, 2, 0) in at && Private(mem, at, use)
      modifies this
      ensures ok <==> forall x: nat | a <= x < a + |src| :: Accessible(old(mem), old(at), r, x / PGSIZE)
      ensures ok ==> dst == src
    {
      hide Ok, Flat, Private, Same, Accessible, ByteAt;
      dst := [];
      ghost var done;
      ok, done := CopyOut(r, a, src);
      ghost var mem1 := mem;
      forall x: nat | a <= x < a + done ensures Accessible(old(mem), old(at), r, x / PGSIZE) {
        ByteThere(mem1, at, r, x);
        SameAccess(old(mem), mem1, at, r, x / PGSIZE);
      }
      if ok {
        assert src[..done] == src;
        var again;
        again, dst := CopyIn(r, a, |src|);
        SameAccess(old(mem), mem1, at, r, (a + |dst|) / PGSIZE);
        assert again;
        forall i | 0 <= i < |dst| ensures dst[i] == src[i] {
          assert ByteAt(mem1, at, r, a + i) == src[i] as int;
        }
      }
    }
  }

  lemma ByteThere(mem: Memory, at: Tables, r: nat, a: nat)
    ensures ByteAt(mem, at, r, a) >= 0 ==> Accessible(mem, at, r, a / PGSIZE)
  {
  }

  lemma AccessibleData(lo: nat, hi: nat, mem: Memory, free: seq<nat>, at: Tables, use: Uses, r: nat, v: nat)
    requires Ok(lo, hi, mem, free, at, use) && Private(mem, at, use) && Accessible(mem, at, r, v)
    ensures IsData(mem, Flat(mem, at, r, v).frame)
  {
    hide Flat, TreeOk;
    assert Reaches(Flat(mem, at, r, v), use, r, v);
    assert LeafOk(mem, at, Flat(mem, at, r, v).frame, r, v);
  }

  lemma SameAccess(mem: Memory, mem': Memory, at: Tables, r: nat, v: nat)
    requires Same(mem, at, mem', at)
    ensures Accessible(mem', at, r, v) <==> Accessible(mem, at, r, v)
  {
    hide Flat;
  }

  lemma PokedNone(mem: Memory, at: Tables, r: nat, a: nat)
    ensures Poked(mem, at, mem, r, a, []) && Same(mem, at, mem, at)
  {
  }

  lemma PokedMore(memS: Memory, at: Tables, mem: Memory, mem': Memory, r: nat, a: nat, src: seq<Byte>, done: nat,
                  n: nat)
    requires done + n <= |src| && Poked(memS, at, mem, r, a, src[..done])
    requires Poked(mem, at, mem', r, a + done, src[done..][..n]) && Same(memS, at, mem, at) && Same(mem, at, mem', at)
    ensures Poked(memS, at, mem', r, a, src[..done + n]) && Same(memS, at, mem', at)
  {
    hide Flat, ByteAt;
    forall r': nat, x: nat
      ensures ByteAt(mem', at, r', x)
              == if r' == r && a <= x < a + |src[..done + n]| then src[..done + n][x - a] as int
                 else ByteAt(memS, at, r', x)
    {
      assert ByteAt(mem, at, r', x)
             == if r' == r && a <= x < a + done then src[..done][x - a] as int else ByteAt(memS, at, r', x);
    }
  }

  lemma Peeked(mem: Memory, at: Tables, r: nat, src: nat, dst: seq<Byte>, n: nat, f: nat)
    requires var s := src + |dst|; s % PGSIZE + n <= PGSIZE && Accessible(mem, at, r, s / PGSIZE)
                                   && f == Flat(mem, at, r, s / PGSIZE).frame && IsData(mem, f)
    requires forall i | 0 <= i < |dst| :: dst[i] as int == ByteAt(mem, at, r, src + i)
    ensures var s := src + |dst|;
            var more := dst + mem[f].bytes[s % PGSIZE..s % PGSIZE + n];
            forall i | 0 <= i < |more| :: more[i] as int == ByteAt(mem, at, r, src + i)
  {
    hide Flat;
    var s := src + |dst|;
    var more := dst + mem[f].bytes[s % PGSIZE..s % PGSIZE + n];
    forall i | 0 <= i < |more| ensures more[i] as int == ByteAt(mem, at, r, src + i) {
      if i >= |dst| {
        assert (src + i) / PGSIZE == s / PGSIZE && (src + i) % PGSIZE == s % PGSIZE + (i - |dst|);
      }
    }
  }

  /** The flags and contents of page `v` of the tree `r`. */
  ghost function WantAt(mem: Memory, at: Tables, r: nat, v: nat): (w: Want) {
    var e := Flat(mem, at, r, v);
    Want(e.flags, if e.frame in mem then mem[e.frame] else Data([]))
  }

  ghost function Copies(mem: Memory, at: Tables, r: nat, n: nat): (want: seq<Want>) {
    seq(n, (v: nat) => WantAt(mem, at, r, v))
  }

  lemma CopiesMore(mem: Memory, at: Tables, use: Uses, r: nat, i: nat, n: nat)
    requires User(mem, at, use, r, 0, n)
    ensures Copies(mem, at, r, 0) == [] && Copies(mem, at, r, i + 1) == Copies(mem, at, r, i) + [WantAt(mem, at, r, i)]
    ensures |Copies(mem, at, r, i)| == i && (i <= n ==> AllLeaves(Copies(mem, at, r, i)))
    ensures i < n ==> AllLeaves(Copies(mem, at, r, i + 1))
  {
    hide Flat;
    forall v: nat | v < n ensures UserLeaf(Flat(mem, at, r, v), use, r, v) {
      UserAt(mem, at, use, r, 0, n, v);
    }
  }

  /** Part way through uvmcopy the next page is still there to copy, and its place still empty. */
  lemma CopyNext(lo: nat, hi: nat, memS: Memory, freeS: seq<nat>, atS: Tables, useS: Uses, mem: Memory, free: seq<nat>,
                 at: Tables, use: Uses, r: nat, s: nat, want: seq<Want>, n: nat)
    requires Ok(lo, hi, memS, freeS, atS, useS) && Ok(lo, hi, mem, free, at, use) && r != s
    requires Added(memS, atS, useS, mem, at, use, s, 0, want)
    requires User(memS, atS, useS, r, 0, n) && Unmapped(memS, atS, s, 0, n) && |want| < n
    ensures |want| < MAXVPN && Flat(mem, at, s, |want|) == NONE
    ensures var e := Flat(mem, at, r, |want|);
            && e.V() && IsData(mem, e.frame) && Want(e.flags, mem[e.frame]) == WantAt(memS, atS, r, |want|)
            && e.flags.(v := true) == e.flags
  {
    hide Flat, TreeOk, Partition;
    UserAt(memS, atS, useS, r, 0, n, |want|);
    var e := Flat(memS, atS, r, |want|);
    assert e == Flat(mem, at, r, |want|);
    assert LeafOk(mem, at, e.frame, r, |want|) && LeafOk(memS, atS, e.frame, r, |want|);
  }

  /** After uvmunmap nothing of the tree is mapped, and none of its user memory is left. */
  lemma AllUnmapped(lo: nat, hi: nat, memS: Memory, freeS: seq<nat>, at: Tables, useS: Uses, mem: Memory,
                    free: seq<nat>, use: Uses, r: nat, n: nat)
    requires Ok(lo, hi, memS, freeS, at, useS) && Ok(lo, hi, mem, free, at, use) && Pos(r, 2, 0) in at
    requires Unmapping(memS, at, useS, mem, use, r, 0, n, true)
    requires forall v: nat | n <= v < MAXVPN :: !Flat(memS, at, r, v).V()
    ensures Bare(mem, at, Pos(r, 2, 0)) && at[Pos(r, 2, 0)] == r
    ensures forall f | f in use :: !(use[f].LeafAt? && use[f].root == r)
  {
    hide Flat;
    assert NodeOk(mem, at, use, Pos(r, 2, 0), at[Pos(r, 2, 0)]);
    BareTree(mem, at, use, r);
    assert forall f | f in use && use[f].LeafAt? :: LeafOk(mem, at, f, use[f].root, use[f].v);
  }

  /** User memory given back and then the tables: the tree is gone. */
  lemma FreedTree(mem: Memory, at: Tables, use: Uses, mem1: Memory, use1: Uses, mem2: Memory, at2: Tables, use2: Uses,
                  r: nat, n: nat)
    requires Unmapping(mem, at, use, mem1, use1, r, 0, n, true)
             && Removed(mem1, at, use1, mem2, at2, use2, Pos(r, 2, 0))
    requires forall f | f in use1 :: f in use2 <==> !OfTree(use1[f], r)
    requires forall q | q in at && q.root == r :: q !in at2
    requires forall r': nat, v: nat | r' != r :: Flat(mem2, at2, r', v) == Flat(mem1, at, r', v)
    ensures Without(mem, at, use, mem2, at2, use2, r)
  {
    hide Flat, Below;
    forall q ensures Below(Pos(r, 2, 0), q) ==> q.root == r {
      BelowRoot(r, q);
    }
  }

  lemma KeptTable(mem: Memory, at: Tables, use: Uses, mem': Memory, at': Tables, use': Uses, p: Pos, i: nat)
    requires p in at && p.level > 0 && i < ENTRIES && Removed(mem, at, use, mem', at', use', Child(p, i))
    requires at[p] in mem && at[p] in use && use[at[p]] == TableAt(p)
    ensures at[p] in mem' && mem'[at[p]] == mem[at[p]]
  {
    BelowUp(Child(p, i), p);
  }

  lemma InRange(lo: nat, hi: nat, free: seq<nat>, use: Uses, f: nat)
    requires Partition(lo, hi, free, use) && f in use
    ensures lo <= f < hi
  {
  }

  function Zeroes(n: nat): (want: seq<Want>) {
    seq(n, _ => ZeroWant())
  }

  lemma ZeroesMore(n: nat)
    ensures Zeroes(0) == [] && Zeroes(n + 1) == Zeroes(n) + [ZeroWant()] && |Zeroes(n)| == n
    ensures AllLeaves(Zeroes(n)) && AllLeaves(Zeroes(n + 1))
  {
  }

  lemma AddedRoot(memS: Memory, atS: Tables, useS: Uses, mem: Memory, at: Tables, use: Uses, r: nat, v: nat,
                  want: seq<Want>)
    requires Added(memS, atS, useS, mem, at, use, r, v, want)
    ensures forall p | p in atS :: p in at
  {
  }

  lemma UserLimit(lo: nat, hi: nat, mem: Memory, free: seq<nat>, at: Tables, use: Uses, r: nat, n: nat)
    requires Ok(lo, hi, mem, free, at, use) && User(mem, at, use, r, 0, n) && lo <= hi
    ensures n <= hi - lo
  {
    var pages := LeafCount(lo, hi, mem, free, at, use, r, n);
  }

  function Pages(sz: nat): (n: nat) {
    (sz + PGSIZE - 1) / PGSIZE
  }

  /** A zeroed page that a process may read, write and execute. */
  /** The fewest pages that hold `sz` bytes. */
  lemma PagesIs(sz: nat)
    ensures Pages(sz) * 4096 >= sz && (Pages(sz) > 0 ==> (Pages(sz) - 1) * 4096 < sz)
  {
  }

  /** A byte of memory a process was given: zero, and the process may do with it what it likes. */
  ghost predicate FreshByte(mem: Memory, at: Tables, r: nat, x: nat) {
    && ByteAt(mem, at, r, x) == 0
    && var e := Flat(mem, at, r, x / PGSIZE); e.V() && e.flags.r && e.flags.w && e.flags.x && e.flags.u
  }

  lemma SameFlags(memS: Memory, atS: Tables, useS: Uses, mem: Memory, at: Tables, use: Uses, r: nat, s: nat, n: nat)
    requires Added(memS, atS, useS, mem, at, use, s, 0, Copies(memS, atS, r, n))
    ensures forall v: nat | v < n :: Flat(mem, at, s, v).flags == Flat(memS, atS, r, v).flags
  {
    hide Flat;
    forall v: nat | v < n ensures Flat(mem, at, s, v).flags == Flat(memS, atS, r, v).flags {
      assert UserPage(mem, at, use, s, 0 + v, Copies(memS, atS, r, n)[v]);
    }
  }

  lemma FreshBytes(memS: Memory, atS: Tables, useS: Uses, mem: Memory, at: Tables, use: Uses, r: nat, v: nat,
                   newsz: nat)
    requires v <= Pages(newsz) <= MAXVPN && Added(memS, atS, useS, mem, at, use, r, v, Zeroes(Pages(newsz) - v))
    ensures forall x: nat | v * PGSIZE <= x < newsz :: FreshByte(mem, at, r, x)
  {
    hide Flat;
    var n := Pages(newsz) - v;
    PagesIs(newsz);
    forall x: nat | v * PGSIZE <= x < newsz ensures FreshByte(mem, at, r, x) {
      var i := x / PGSIZE - v;
      assert 0 <= i < n && v + i == x / PGSIZE;
      assert UserPage(mem, at, use, r, v + i, Zeroes(n)[i]);
    }
  }

  function ZeroWant(): (w: Want) {
    Want(Flags(true, true, true, true, true), Data(seq(PGSIZE, _ => 0)))
  }

  lemma SameNone(mem: Memory, at: Tables, mem': Memory, r: nat, v: nat)
    requires Same(mem, at, mem', at) && Flat(mem, at, r, v) == NONE
    ensures !Flat(mem', at, r, v).V()
  {
  }

  lemma Parts(lo: nat, hi: nat, mem: Memory, free: seq<nat>, at: Tables, use: Uses)
    requires Ok(lo, hi, mem, free, at, use)
    ensures Partition(lo, hi, free, use)
  {
  }

  lemma KeepsNew(mem: Memory, mem': Memory, use: Uses, f: nat, page: Page)
    requires mem' == mem[f := page] && f !in use
    ensures KeepsData(mem, mem', use)
  {
  }

  lemma StillHeld(mem: Memory, at: Tables, useS: Uses, mem': Memory, at': Tables, use': Uses, r: nat, f: nat)
    requires Grown(mem, at, useS[f := Held], mem', at', use', r)
    ensures f in use' && use'[f] == Held
  {
    assert f in useS[f := Held];
  }

  /** pte & ~PTE_U */
  function NoUser(e: Pte): (e': Pte) {
    e.(flags := e.flags.(u := false))
  }

  lemma AllKept(mem: Memory, use: Uses)
    ensures KeepsData(mem, mem, use)
  {
  }

  lemma FlagsChanged(lo: nat, hi: nat, mem: Memory, free: seq<nat>, at: Tables, use: Uses, r: nat, v: nat, mem': Memory)
    requires Ok(lo, hi, mem, free, at, use) && v < MAXVPN && Node(r, v, 0) in at
    requires var t := at[Node(r, v, 0)]; t in mem && mem[t].Table? && |mem[t].ptes| == ENTRIES
    requires var t := at[Node(r, v, 0)];
             mem' == mem[t := Table(mem[t].ptes[Index(v, 0) := NoUser(mem[t].ptes[Index(v, 0)])])]
    ensures Ok(lo, hi, mem', free, at, use) && KeepsData(mem, mem', use)
    ensures forall r': nat, v': nat | v' < MAXVPN ::
              Flat(mem', at, r', v') == if r' == r && v' == v then NoUser(Flat(mem, at, r, v))
                                        else Flat(mem, at, r', v')
  {
    hide TreeOk, Flat, Node, Index;
    FlatSlot(mem, at, r, v);
    SetLeaf(mem, at, use, r, v, NoUser(Flat(mem, at, r, v)), mem');
    TableUse(mem, at, use, Node(r, v, 0));
    forall f | f in use && use[f].LeafAt? ensures LeafOk(mem', at, f, use[f].root, use[f].v) {
      assert LeafOk(mem, at, f, use[f].root, use[f].v);
    }
  }

  /** The slot is where the hardware looks. */
  lemma WalkLeads(lo: nat, hi: nat, mem: Memory, free: seq<nat>, at: Tables, use: Uses, r: nat, v: nat)
    requires Ok(lo, hi, mem, free, at, use) && v < MAXVPN && Pos(r, 2, 0) in at && Node(r, v, 0) in at
    ensures LeadsTo(mem, r, v * PGSIZE, at[Node(r, v, 0)]) && Index(v, 0) == Vpn(v * PGSIZE, 0)
  {
    hide TreeOk, Flat, LeadsTo;
    assert v * PGSIZE / PGSIZE == v;
    IndexIsVpn(v * PGSIZE);
    TranslateIsFlat(mem, at, use, r, v * PGSIZE);
  }

  lemma FlatMissing(mem: Memory, at: Tables, r: nat, v: nat)
    ensures Node(r, v, 0) !in at ==> !Flat(mem, at, r, v).V()
  {
  }

  lemma InUse(lo: nat, hi: nat, mem: Memory, free: seq<nat>, at: Tables, use: Uses, f: nat, t: nat)
    requires Ok(lo, hi, mem, free, at, use) && f in use && use[f].LeafAt?
    ensures Partition(lo, hi, free, use) && lo <= f < hi
    ensures t in mem && mem[t].Table? ==> t != f
  {
    assert LeafOk(mem, at, f, use[f].root, use[f].v);
  }

  datatype MapResult = Mapped | NoMemory | Panic

  lemma MapStart(lo: nat, hi: nat, mem: Memory, free: seq<nat>, at: Tables, use: Uses, r: nat, v: nat, f: nat,
                 perm: Flags)
    requires Ok(lo, hi, mem, free, at, use) && Pos(r, 2, 0) in at
    ensures Grown(mem, at, use, mem, at, use, r) && Maps(mem, at, mem, at, r, v, 0, f, perm)
  {
  }

  lemma MapWalked(memS: Memory, atS: Tables, useS: Uses, mem0: Memory, at0: Tables, use0: Uses, mem: Memory, at: Tables,
                  use: Uses, r: nat, v: nat, done: nat, f: nat, perm: Flags)
    requires Maps(memS, atS, mem0, at0, r, v, done, f, perm) && Grown(memS, atS, useS, mem0, at0, use0, r)
    requires Same(mem0, at0, mem, at) && Grown(mem0, at0, use0, mem, at, use, r) && Pos(r, 2, 0) in at0
    ensures Maps(memS, atS, mem, at, r, v, done, f, perm) && Grown(memS, atS, useS, mem, at, use, r)
            && Pos(r, 2, 0) in at
  {
    hide Flat;
    GrownTrans(memS, atS, useS, mem0, at0, use0, mem, at, use, r);
  }

  lemma FlatSlot(mem: Memory, at: Tables, r: nat, v: nat)
    requires Node(r, v, 0) in at && v < MAXVPN
    requires var t := at[Node(r, v, 0)]; t in mem && mem[t].Table? && |mem[t].ptes| == ENTRIES
    ensures Flat(mem, at, r, v) == mem[at[Node(r, v, 0)]].ptes[Index(v, 0)]
  {
  }

  lemma MapsAt(mem: Memory, at: Tables, mem': Memory, at': Tables, r: nat, v: nat, done: nat, f: nat, perm: Flags)
    requires Maps(mem, at, mem', at', r, v, done, f, perm) && v + done < MAXVPN
    ensures Flat(mem', at', r, v + done) == Flat(mem, at, r, v + done)
  {
  }

  lemma MapStored(lo: nat, hi: nat, memS: Memory, atS: Tables, useS: Uses, mem: Memory, free: seq<nat>, at: Tables,
                  use: Uses, mem': Memory, r: nat, v: nat, done: nat, f: nat, perm: Flags)
    requires Ok(lo, hi, mem, free, at, use) && v + done < MAXVPN && Node(r, v + done, 0) in at
    requires Maps(memS, atS, mem, at, r, v, done, f, perm) && Grown(memS, atS, useS, mem, at, use, r)
    requires !Flat(mem, at, r, v + done).V()
    requires var t := at[Node(r, v + done, 0)];
      && t in mem && mem[t].Table? && |mem[t].ptes| == ENTRIES
      && mem' == mem[t := Table(mem[t].ptes[Index(v + done, 0) := MakePte(f + done, perm)])]
    ensures Ok(lo, hi, mem', free, at, use) && Grown(memS, atS, useS, mem', at, use, r)
    ensures Maps(memS, atS, mem', at, r, v, done + 1, f, perm)
  {
    hide Ok, Flat, Node, Index;
    SetLeafOk(lo, hi, mem, free, at, use, r, v + done, MakePte(f + done, perm), mem');
    GrownTrans(memS, atS, useS, mem, at, use, mem', at, use, r);
  }

  lemma GaveBack(lo: nat, hi: nat, free: seq<nat>, use: Uses, f: nat)
    requires Partition(lo, hi, free, use) && f in use
    ensures Partition(lo, hi, [f] + free, use - {f})
  {
    var list := [f] + free;
    assert forall i | 0 < i < |list| :: list[i] == free[i - 1];
    forall x | x in free ensures x in list {
      var i :| 0 <= i < |free| && free[i] == x;
      assert list[i + 1] == x;
    }
    assert list[0] == f;
  }

  lemma WalkStart(lo: nat, hi: nat, mem: Memory, free: seq<nat>, at: Tables, use: Uses, r: nat)
    requires Ok(lo, hi, mem, free, at, use) && Pos(r, 2, 0) in at
    ensures at[Pos(r, 2, 0)] == r && Same(mem, at, mem, at) && Grown(mem, at, use, mem, at, use, r)
  {
    assert NodeOk(mem, at, use, Pos(r, 2, 0), at[Pos(r, 2, 0)]);
  }

  /** The table at `level` on the way to `v`: its entry says whether the next table is there. */
  lemma WalkStep(lo: nat, hi: nat, mem: Memory, free: seq<nat>, at: Tables, use: Uses, r: nat, v: nat, level: nat)
    requires Ok(lo, hi, mem, free, at, use) && v < MAXVPN && level <= 2 && Node(r, v, level) in at
    ensures var t := at[Node(r, v, level)];
            && Partition(lo, hi, free, use)
            && t in mem && mem[t].Table? && |mem[t].ptes| == ENTRIES && t in use && Index(v, level) < ENTRIES
            && (level > 0 ==> var e := mem[t].ptes[Index(v, level)];
                 && (e.V() <==> Node(r, v, level - 1) in at)
                 && (e.V() ==> e.frame == at[Node(r, v, level - 1)]))
    ensures level > 0 && Node(r, v, 0) in at ==> Node(r, v, level - 1) in at
  {
    assert NodeOk(mem, at, use, Node(r, v, level), at[Node(r, v, level)]);
    if level > 0 {
      OnPath(mem, at, use, r, v, level);
    }
    if level == 2 && Node(r, v, 0) in at {
      PathUp(mem, at, use, r, v, 0);
    }
  }

  lemma WalkAdd(lo: nat, hi: nat, memS: Memory, atS: Tables, useS: Uses, mem0: Memory, free0: seq<nat>, at0: Tables,
                use0: Uses, mem: Memory, at: Tables, use: Uses, r: nat, v: nat, level: nat, f: nat)
    requires Ok(lo, hi, mem0, free0, at0, use0) && v < MAXVPN && 0 < level <= 2 && Node(r, v, level) in at0
    requires Same(memS, atS, mem0, at0) && Grown(memS, atS, useS, mem0, at0, use0, r)
    requires var t := at0[Node(r, v, level)];
      && t in mem0 && mem0[t].Table? && |mem0[t].ptes| == ENTRIES && t in use0
      && !mem0[t].ptes[Index(v, level)].V() && free0 != [] && f == free0[0] && f !in use0
      && mem == mem0[f := Junk(5)][f := Table(ZEROES)][t := Table(mem0[t].ptes[Index(v, level) := Link(f)])]
    requires at == at0[Node(r, v, level - 1) := f] && use == use0[f := Held][f := TableAt(Node(r, v, level - 1))]
    ensures Ok(lo, hi, mem, free0[1..], at, use) && Same(memS, atS, mem, at) && Grown(memS, atS, useS, mem, at, use, r)
  {
    hide Ok, Flat;
    var p := Node(r, v, level);
    NodeChild(r, v, level);
    assert level == 1 ==> v / ENTRIES < MAXVPN / ENTRIES;
    assert mem == mem0[f := Table(ZEROES)][at0[p] := Table(mem0[at0[p]].ptes[Index(v, level) := Link(f)])];
    assert use == use0[f := TableAt(Child(p, Index(v, level)))];
    AddTableOk(lo, hi, mem0, free0, at0, use0, p, Index(v, level), f, mem, at, use);
    GrownTrans(memS, atS, useS, mem0, at0, use0, mem, at, use, r);
  }
}
