/** Building and replacing the memory of a process: proc_pagetable and proc_freepagetable of
    kernel/proc.c, loadseg and the memory side of exec of kernel/exec.c. */
module Exec {
  import opened Prelude
  import opened PageTables
  import opened PageTableFree
  import opened VirtualMemory

  const TRAMPOLINE := MAXVPN - 1
  const TRAPFRAME := MAXVPN - 2
  /** Pages of memory between KERNBASE and PHYSTOP. */
  const MEMPAGES := 0x8000

  const TEXT := Flags(false, true, false, true, false)
  const KERNELDATA := Flags(false, true, true, false, false)

  /** Memory at one moment. */
  datatype Snap = Snap(mem: Memory, at: Tables, use: Uses)

  ghost function Now(m: PhysicalMemory): (s: Snap)
    reads m
  {
    Snap(m.mem, m.at, m.use)
  }

  ghost predicate Good(m: PhysicalMemory)
    reads m
  {
    m.Valid() && Private(m.mem, m.at, m.use)
  }

  /** The two pages at the top of every user page table: code of the kernel, and a page it holds. */
  datatype Top = Top(trampoline: nat, trapframe: nat)

  ghost predicate TopOk(m: PhysicalMemory, top: Top)
    reads m
  {
    !(m.lo <= top.trampoline < m.hi) && top.trapframe in m.use && m.use[top.trapframe] == Held
  }

  ghost predicate TopLoose(m: PhysicalMemory, top: Top)
    reads m
  {
    !(m.lo <= top.trampoline < m.hi) && (top.trapframe in m.use ==> m.use[top.trapframe] == Held)
  }

  /** The tree `r` of a process with `n` pages: they are user memory of its own, the two top pages are
      mapped for the kernel only, and nothing else is mapped. */
  ghost predicate Image(s: Snap, r: nat, n: nat, top: Top) {
    && Pos(r, 2, 0) in s.at && n <= TRAPFRAME && User(s.mem, s.at, s.use, r, 0, n)
    && Unmapped(s.mem, s.at, r, n, TRAPFRAME)
    && Flat(s.mem, s.at, r, TRAPFRAME) == MakePte(top.trapframe, KERNELDATA)
    && Flat(s.mem, s.at, r, TRAMPOLINE) == MakePte(top.trampoline, TEXT)
  }

  /** The two pages at the top of the address space: the kernel may read and execute the one and read and
      write the other, and the process may use neither. */
  lemma TopPages(s: Snap, r: nat, n: nat, top: Top)
    requires Image(s, r, n, top)
    ensures Flat(s.mem, s.at, r, 0x3FF_FFFF) == Pte(top.trampoline, Flags(true, true, false, true, false))
    ensures Flat(s.mem, s.at, r, 0x3FF_FFFE) == Pte(top.trapframe, Flags(true, true, true, false, false))
    ensures !Accessible(s.mem, s.at, r, 0x3FF_FFFF) && !Accessible(s.mem, s.at, r, 0x3FF_FFFE)
  {
    hide Flat, User, Unmapped;
  }

  /** Nothing but the tree `r` is different: every page in use is as it was, every new one is for `r`,
      and every other tree has the same mappings and the same bytes. */
  ghost predicate Apart(s: Snap, t: Snap, r: nat) {
    && (forall f | f in s.use :: f in t.use && t.use[f] == s.use[f])
    && (forall f | f in t.use && f !in s.use :: OfTree(t.use[f], r))
    && (forall p | p in s.at :: p in t.at && t.at[p] == s.at[p])
    && Elsewhere(s, t, r)
  }

  ghost predicate Elsewhere(s: Snap, t: Snap, r: nat) {
    && (forall r': nat, v: nat | r' != r && v < MAXVPN :: Flat(t.mem, t.at, r', v) == Flat(s.mem, s.at, r', v))
    && (forall r': nat, a: nat | r' != r :: ByteAt(t.mem, t.at, r', a) == ByteAt(s.mem, s.at, r', a))
  }

  /** Memory is as it was, down to the bytes of every process. */
  ghost predicate Unchanged(s: Snap, t: Snap) {
    && t.use == s.use
    && (forall p | p in s.at :: p in t.at && t.at[p] == s.at[p])
    && (forall r: nat, v: nat | v < MAXVPN :: Flat(t.mem, t.at, r, v) == Flat(s.mem, s.at, r, v))
    && (forall r: nat, a: nat :: ByteAt(t.mem, t.at, r, a) == ByteAt(s.mem, s.at, r, a))
  }

  /** The tree `r` and all its pages are given back; every other tree has the same mappings and bytes. */
  ghost predicate Gone(s: Snap, t: Snap, r: nat) {
    && (forall f | f in t.use :: f in s.use && t.use[f] == s.use[f])
    && (forall f | f in s.use :: f in t.use <==> !OfTree(s.use[f], r))
    && (forall p | p in s.at && p.root != r :: p in t.at && t.at[p] == s.at[p])
    && (forall p | p in t.at :: p in s.at && p.root != r)
    && Elsewhere(s, t, r)
  }

  lemma ApartTrans(s: Snap, t: Snap, u: Snap, r: nat)
    requires Apart(s, t, r) && Apart(t, u, r)
    ensures Apart(s, u, r)
  {
    hide Flat, ByteAt, OfTree;
  }

  lemma ApartUse(s: Snap, t: Snap, r: nat, f: nat)
    requires Apart(s, t, r) && f in s.use
    ensures f in t.use && t.use[f] == s.use[f]
  {
  }

  lemma ApartSelf(s: Snap, r: nat)
    ensures Apart(s, s, r) && Unchanged(s, s)
  {
    hide Flat, ByteAt, OfTree;
  }

  // ---------- what the operations on one tree leave alone ----------

  /** A byte is the same where the mapping and the page are. */
  lemma SameByte(mem: Memory, at: Tables, use: Uses, mem': Memory, at': Tables, use': Uses, r: nat, a: nat)
    requires Private(mem, at, use) && LeavesOk(mem, at, use) && KeepsData(mem, mem', use')
    requires forall f | f in use && use[f].LeafAt? && use[f].root == r :: f in use' && use'[f] == use[f]
    requires a / PGSIZE < MAXVPN ==> Flat(mem', at', r, a / PGSIZE) == Flat(mem, at, r, a / PGSIZE)
    ensures ByteAt(mem', at', r, a) == ByteAt(mem, at, r, a)
  {
    hide Flat;
    if Accessible(mem, at, r, a / PGSIZE) {
      var e := Flat(mem, at, r, a / PGSIZE);
      assert Reaches(e, use, r, a / PGSIZE);
      assert LeafOk(mem, at, e.frame, r, a / PGSIZE);
    }
  }

  /** A tree that is changed only by new pages and tables in it. */
  lemma GrownApart(lo: nat, hi: nat, free: seq<nat>, s: Snap, t: Snap, r: nat)
    requires Ok(lo, hi, s.mem, free, s.at, s.use) && Private(s.mem, s.at, s.use) && KeepsData(s.mem, t.mem, s.use)
    requires forall f | f in s.use :: f in t.use && t.use[f] == s.use[f]
    requires forall f | f in t.use && f !in s.use :: OfTree(t.use[f], r)
    requires forall p | p in s.at :: p in t.at && t.at[p] == s.at[p]
    requires forall r': nat, v: nat | r' != r && v < MAXVPN :: Flat(t.mem, t.at, r', v) == Flat(s.mem, s.at, r', v)
    ensures Apart(s, t, r)
  {
    hide Flat, ByteAt, OfTree, Private, LeavesOk, TreeOk, Partition;
    forall r': nat, a: nat | r' != r ensures ByteAt(t.mem, t.at, r', a) == ByteAt(s.mem, s.at, r', a) {
      SameByte(s.mem, s.at, s.use, t.mem, t.at, s.use, r', a);
    }
  }

  lemma AddedApart(lo: nat, hi: nat, free: seq<nat>, s: Snap, t: Snap, r: nat, v: nat, want: seq<Want>)
    requires Ok(lo, hi, s.mem, free, s.at, s.use) && Private(s.mem, s.at, s.use)
    requires Added(s.mem, s.at, s.use, t.mem, t.at, t.use, r, v, want)
    ensures Apart(s, t, r) && Private(t.mem, t.at, t.use)
  {
    hide Flat, Ok;
    GrownApart(lo, hi, free, s, t, r);
    forall r': nat, v': nat | v' < MAXVPN ensures Reaches(Flat(t.mem, t.at, r', v'), t.use, r', v') {
      assert Reaches(Flat(s.mem, s.at, r', v'), s.use, r', v');
      if r' == r && v <= v' < v + |want| {
        assert UserPage(t.mem, t.at, t.use, r, v + (v' - v), want[v' - v]);
      }
    }
  }

  /** Pages mapped for the kernel. */
  lemma MappedApart(lo: nat, hi: nat, free: seq<nat>, s: Snap, t: Snap, r: nat, v: nat, n: nat, f: nat, perm: Flags)
    requires Ok(lo, hi, s.mem, free, s.at, s.use) && Private(s.mem, s.at, s.use) && !perm.u
    requires Grown(s.mem, s.at, s.use, t.mem, t.at, t.use, r) && Maps(s.mem, s.at, t.mem, t.at, r, v, n, f, perm)
    ensures Apart(s, t, r) && Private(t.mem, t.at, t.use)
  {
    hide Flat, Ok;
    GrownApart(lo, hi, free, s, t, r);
    forall r': nat, v': nat | v' < MAXVPN ensures Reaches(Flat(t.mem, t.at, r', v'), t.use, r', v') {
      assert Reaches(Flat(s.mem, s.at, r', v'), s.use, r', v');
    }
  }

  lemma UnmappedApart(lo: nat, hi: nat, free: seq<nat>, s: Snap, t: Snap, r: nat, v: nat, n: nat)
    requires Ok(lo, hi, s.mem, free, s.at, s.use) && Private(s.mem, s.at, s.use) && t.at == s.at
    requires Unmapping(s.mem, s.at, s.use, t.mem, t.use, r, v, n, false)
    ensures Apart(s, t, r) && Private(t.mem, t.at, t.use)
  {
    hide Flat, Ok;
    GrownApart(lo, hi, free, s, t, r);
    forall r': nat, v': nat | v' < MAXVPN ensures Reaches(Flat(t.mem, t.at, r', v'), t.use, r', v') {
      assert Reaches(Flat(s.mem, s.at, r', v'), s.use, r', v');
    }
  }

  lemma PokedApart(s: Snap, t: Snap, r: nat, a: nat, bytes: seq<Byte>)
    requires t.at == s.at && t.use == s.use && Same(s.mem, s.at, t.mem, s.at) && Poked(s.mem, s.at, t.mem, r, a, bytes)
    ensures Apart(s, t, r)
  {
    hide Flat, ByteAt;
  }

  /** A page number that is not in use is the root of nothing. */
  lemma FreshRoot(lo: nat, hi: nat, mem: Memory, free: seq<nat>, at: Tables, use: Uses, r: nat)
    requires Ok(lo, hi, mem, free, at, use) && r !in use
    ensures forall p | p in at :: p.root != r
    ensures forall v: nat :: Flat(mem, at, r, v) == NONE
    ensures forall f | f in use :: !OfTree(use[f], r)
  {
    forall p | p in at ensures p.root != r {
      RootInUse(mem, at, use, p);
    }
    forall f | f in use ensures !OfTree(use[f], r) {
      if use[f].LeafAt? {
        assert LeafOk(mem, at, f, use[f].root, use[f].v);
      }
    }
  }

  lemma RootInUse(mem: Memory, at: Tables, use: Uses, p: Pos)
    requires TreeOk(mem, at, use) && p in at
    ensures p.root in use
    decreases 2 - p.level
  {
    assert NodeOk(mem, at, use, p, at[p]);
    if p.level < 2 {
      RootInUse(mem, at, use, Parent(p));
    }
  }

  /** A tree made and given back again leaves no trace. */
  lemma CameAndWent(lo: nat, hi: nat, free: seq<nat>, s: Snap, t: Snap, u: Snap, r: nat)
    requires Ok(lo, hi, s.mem, free, s.at, s.use) && r !in s.use && Apart(s, t, r) && Gone(t, u, r)
    ensures Unchanged(s, u)
  {
    hide Ok, ByteAt, Flat, OfTree;
    FreshRoot(lo, hi, s.mem, free, s.at, s.use, r);
    assert u.use == s.use;
    forall v: nat ensures Flat(u.mem, u.at, r, v) == NONE {
      NoTree(u.mem, u.at, r, v);
    }
    forall a: nat ensures ByteAt(u.mem, u.at, r, a) == ByteAt(s.mem, s.at, r, a) {
      NoByte(u.mem, u.at, r, a);
      NoByte(s.mem, s.at, r, a);
    }
  }

  lemma NoTree(mem: Memory, at: Tables, r: nat, v: nat)
    requires forall p | p in at :: p.root != r
    ensures Flat(mem, at, r, v) == NONE
  {
  }

  lemma NoByte(mem: Memory, at: Tables, r: nat, a: nat)
    requires Flat(mem, at, r, a / PGSIZE) == NONE
    ensures ByteAt(mem, at, r, a) == -1
  {
    hide Flat;
  }

  /** What is left without the tree `r` is private, and has the bytes it had. */
  lemma WithoutTree(lo: nat, hi: nat, free: seq<nat>, s: Snap, t: Snap, r: nat)
    requires Ok(lo, hi, s.mem, free, s.at, s.use) && Private(s.mem, s.at, s.use)
    requires Without(s.mem, s.at, s.use, t.mem, t.at, t.use, r)
    ensures Gone(s, t, r) && Private(t.mem, t.at, t.use)
  {
    hide Flat, ByteAt, TreeOk, Partition;
    forall r': nat, a: nat | r' != r ensures ByteAt(t.mem, t.at, r', a) == ByteAt(s.mem, s.at, r', a) {
      SameByte(s.mem, s.at, s.use, t.mem, t.at, t.use, r', a);
    }
    forall r': nat, v: nat | v < MAXVPN ensures Reaches(Flat(t.mem, t.at, r', v), t.use, r', v) {
      if r' == r {
        NoTree(t.mem, t.at, r, v);
      } else {
        assert Reaches(Flat(s.mem, s.at, r', v), s.use, r', v);
      }
    }
  }

  // ---------- page tables of processes ----------

  /** A tree that maps nothing. */
  ghost predicate Blank(s: Snap, r: nat) {
    Pos(r, 2, 0) in s.at && forall v: nat | v < MAXVPN :: Flat(s.mem, s.at, r, v) == NONE
  }

  /** A tree that maps nothing but the trampoline. */
  ghost predicate OnlyTrampoline(s: Snap, r: nat, top: Top) {
    && Pos(r, 2, 0) in s.at
    && forall v: nat | v < MAXVPN ::
         Flat(s.mem, s.at, r, v) == if v == TRAMPOLINE then MakePte(top.trampoline, TEXT) else NONE
  }

  lemma CreatedApart(lo: nat, hi: nat, free: seq<nat>, s: Snap, t: Snap, r: nat)
    requires Ok(lo, hi, s.mem, free, s.at, s.use) && Private(s.mem, s.at, s.use) && r !in s.use
    requires t.use == s.use[r := TableAt(Pos(r, 2, 0))] && t.at == s.at[Pos(r, 2, 0) := r] && Pos(r, 2, 0) !in s.at
    requires KeepsData(s.mem, t.mem, s.use)
             && forall r': nat, v: nat :: Flat(t.mem, t.at, r', v) == Flat(s.mem, s.at, r', v)
    ensures Apart(s, t, r) && Private(t.mem, t.at, t.use) && Blank(t, r)
  {
    hide Flat, Ok;
    FreshRoot(lo, hi, s.mem, free, s.at, s.use, r);
    GrownApart(lo, hi, free, s, t, r);
    forall r': nat, v: nat | v < MAXVPN ensures Reaches(Flat(t.mem, t.at, r', v), t.use, r', v) {
      assert Reaches(Flat(s.mem, s.at, r', v), s.use, r', v);
    }
  }

  lemma FirstMapped(s: Snap, t: Snap, r: nat, done: nat, top: Top)
    requires Blank(s, r) && Apart(s, t, r) && Maps(s.mem, s.at, t.mem, t.at, r, TRAMPOLINE, done, top.trampoline, TEXT)
             && done <= 1
    ensures if done == 0 then Blank(t, r) else OnlyTrampoline(t, r, top)
  {
    hide Flat;
  }

  lemma SecondMapped(s: Snap, t: Snap, r: nat, done: nat, top: Top)
    requires OnlyTrampoline(s, r, top) && Apart(s, t, r) && done <= 1
    requires Maps(s.mem, s.at, t.mem, t.at, r, TRAPFRAME, done, top.trapframe, KERNELDATA)
    ensures if done == 0 then OnlyTrampoline(t, r, top) else Image(t, r, 0, top)
  {
    hide Flat;
  }

  lemma BlankAt(s: Snap, r: nat, v: nat)
    requires Blank(s, r) && v < MAXVPN
    ensures !Flat(s.mem, s.at, r, v).V() && Pos(r, 2, 0) in s.at
  {
    hide Flat;
  }

  lemma OnlyAt(s: Snap, r: nat, top: Top)
    requires OnlyTrampoline(s, r, top)
    ensures !Flat(s.mem, s.at, r, TRAPFRAME).V() && Pos(r, 2, 0) in s.at
    ensures Flat(s.mem, s.at, r, TRAMPOLINE).V() && Flat(s.mem, s.at, r, TRAMPOLINE).Leaf()
  {
    hide Flat;
  }

  /** A page mapped from outside of memory, or free, or held, is no user memory. */
  lemma NoLeaf(lo: nat, hi: nat, mem: Memory, free: seq<nat>, at: Tables, use: Uses, r: nat, v: nat)
    requires Ok(lo, hi, mem, free, at, use)
    requires var f := Flat(mem, at, r, v).frame; lo <= f < hi && f in use ==> use[f] == Held
    ensures forall f | f in use && use[f].LeafAt? && use[f].root == r :: !(v <= use[f].v < v + 1)
  {
    hide Flat, TreeOk;
    forall f | f in use && use[f].LeafAt? && use[f].root == r ensures use[f].v != v {
      assert LeafOk(mem, at, f, r, use[f].v);
    }
  }

  lemma TrampolineGone(s: Snap, t: Snap, r: nat, top: Top)
    requires OnlyTrampoline(s, r, top) && t.at == s.at
             && Unmapping(s.mem, s.at, s.use, t.mem, t.use, r, TRAMPOLINE, 1, false)
    ensures Blank(t, r)
  {
    hide Flat;
  }

  /** A page table with no user memory; without memory for it, nothing changes. */
  method ProcPagetable(m: PhysicalMemory, top: Top) returns (r: Option<nat>)
    requires Good(m) && TopOk(m, top)
    modifies m
    ensures Good(m)
    ensures r.None? ==> Unchanged(old(Now(m)), Now(m)) && |old(m.free)| < 5
    ensures r.Some? ==> r.value !in old(m.use) && Apart(old(Now(m)), Now(m), r.value) && Image(Now(m), r.value, 0, top)
                        && |old(m.free)| <= |m.free| + 5
  {
    hide Ok, Flat, Private, Grown, Maps, Unmapping, Without, Apart, Unchanged, Image, Same, KeepsData, Elsewhere,
         ByteAt, Blank,
         OnlyTrampoline;
    ghost var s := Now(m);
    ApartSelf(s, 0);
    r := m.UvmCreate();
    if r.None? {
      return;
    }
    ghost var s1, free1 := Now(m), m.free;
    CreatedApart(m.lo, m.hi, old(m.free), s, s1, r.value);
    BlankAt(s1, r.value, TRAMPOLINE);
    var res, done := m.MapRun(r.value, TRAMPOLINE, 1, top.trampoline, TEXT);
    ghost var s2, free2 := Now(m), m.free;
    MappedApart(m.lo, m.hi, free1, s1, s2, r.value, TRAMPOLINE, done, top.trampoline, TEXT);
    ApartTrans(s, s1, s2, r.value);
    FirstMapped(s1, s2, r.value, done, top);
    if !res.Mapped? {
      DropBlank(m, r.value, s, old(m.free));
      return None;
    }
    OnlyAt(s2, r.value, top);
    res, done := m.MapRun(r.value, TRAPFRAME, 1, top.trapframe, KERNELDATA);
    ghost var s3, free3 := Now(m), m.free;
    MappedApart(m.lo, m.hi, free2, s2, s3, r.value, TRAPFRAME, done, top.trapframe, KERNELDATA);
    ApartTrans(s, s2, s3, r.value);
    SecondMapped(s2, s3, r.value, done, top);
    if !res.Mapped? {
      OnlyAt(s3, r.value, top);
      TrampolineFrame(s3, r.value, top);
      NoLeaf(m.lo, m.hi, m.mem, m.free, m.at, m.use, r.value, TRAMPOLINE);
      var panic, n := m.UvmUnmap(r.value, TRAMPOLINE, 1, false);
      ghost var s4 := Now(m);
      UnmappedApart(m.lo, m.hi, free3, s3, s4, r.value, TRAMPOLINE, n);
      ApartTrans(s, s3, s4, r.value);
      TrampolineGone(s3, s4, r.value, top);
      DropBlank(m, r.value, s, old(m.free));
      return None;
    }
  }

  lemma TrampolineFrame(s: Snap, r: nat, top: Top)
    requires OnlyTrampoline(s, r, top)
    ensures Flat(s.mem, s.at, r, TRAMPOLINE).frame == top.trampoline
  {
    hide Flat;
  }

  /** uvmfree of a new tree that maps nothing. */
  method DropBlank(m: PhysicalMemory, r: nat, ghost s: Snap, ghost free: seq<nat>)
    requires Good(m) && Blank(Now(m), r) && Apart(s, Now(m), r) && Ok(m.lo, m.hi, s.mem, free, s.at, s.use)
             && r !in s.use
    modifies m
    ensures Good(m) && Unchanged(s, Now(m))
  {
    hide Ok, Flat, Private, Without, Apart, Unchanged, Gone, Elsewhere, ByteAt;
    ghost var t, free1 := Now(m), m.free;
    m.UvmFree(r, 0);
    WithoutTree(m.lo, m.hi, free1, t, Now(m), r);
    CameAndWent(m.lo, m.hi, free, s, t, Now(m), r);
  }

  lemma ImageTop(s: Snap, r: nat, n: nat, top: Top)
    requires Image(s, r, n, top)
    ensures Pos(r, 2, 0) in s.at
    ensures var e := Flat(s.mem, s.at, r, TRAMPOLINE); e.V() && e.Leaf() && e.frame == top.trampoline
    ensures var e := Flat(s.mem, s.at, r, TRAPFRAME); e.V() && e.Leaf() && e.frame == top.trapframe
  {
    hide Flat;
  }

  /** Without its top pages, a tree maps user memory only. */
  lemma TopGone(s: Snap, t: Snap, u: Snap, r: nat, n: nat, top: Top)
    requires Image(s, r, n, top) && t.at == s.at && u.at == s.at
    requires Unmapping(s.mem, s.at, s.use, t.mem, t.use, r, TRAMPOLINE, 1, false)
    requires Unmapping(t.mem, t.at, t.use, u.mem, u.use, r, TRAPFRAME, 1, false)
    ensures User(u.mem, u.at, u.use, r, 0, n) && forall v: nat | n <= v < MAXVPN :: !Flat(u.mem, u.at, r, v).V()
  {
    hide Flat;
    forall v: nat | v < MAXVPN
      ensures Flat(u.mem, u.at, r, v) == if v < TRAPFRAME then Flat(s.mem, s.at, r, v) else NONE
    {
      assert Flat(t.mem, t.at, r, v) == if v == TRAMPOLINE then NONE else Flat(s.mem, s.at, r, v);
    }
  }

  lemma StillMapped(s: Snap, t: Snap, r: nat)
    requires Unmapping(s.mem, s.at, s.use, t.mem, t.use, r, TRAMPOLINE, 1, false) && t.at == s.at
    ensures Flat(t.mem, t.at, r, TRAPFRAME) == Flat(s.mem, s.at, r, TRAPFRAME) && t.use == s.use
  {
    hide Flat;
  }

  /** Two changes of the tree `r`, and then it is given back. */
  lemma ThenGone(s: Snap, t: Snap, u: Snap, r: nat)
    requires Apart(s, t, r) && t.use == s.use && t.at == s.at && Gone(t, u, r)
    ensures Gone(s, u, r)
  {
    hide Flat, ByteAt, OfTree;
  }

  /** Gives back a process's page table and its user memory, but not the two pages at the top. */
  method ProcFreePagetable(m: PhysicalMemory, r: nat, sz: nat, ghost top: Top)
    requires Good(m) && TopLoose(m, top) && Image(Now(m), r, Pages(sz), top)
    modifies m
    ensures Good(m) && Gone(old(Now(m)), Now(m), r) && (old(TopOk(m, top)) ==> TopOk(m, top))
  {
    hide Ok, Flat, Private, Unmapping, Without, Apart, Image, Elsewhere, ByteAt, User, Pages, KeepsData, Gone;
    ghost var s, free0 := Now(m), m.free;
    ImageTop(s, r, Pages(sz), top);
    NoLeaf(m.lo, m.hi, m.mem, m.free, m.at, m.use, r, TRAMPOLINE);
    var panic, n := m.UvmUnmap(r, TRAMPOLINE, 1, false);
    ghost var s1, free1 := Now(m), m.free;
    StillMapped(s, s1, r);
    UnmappedApart(m.lo, m.hi, free0, s, s1, r, TRAMPOLINE, n);
    NoLeaf(m.lo, m.hi, m.mem, m.free, m.at, m.use, r, TRAPFRAME);
    panic, n := m.UvmUnmap(r, TRAPFRAME, 1, false);
    ghost var s2, free2 := Now(m), m.free;
    UnmappedApart(m.lo, m.hi, free1, s1, s2, r, TRAPFRAME, n);
    TopGone(s, s1, s2, r, Pages(sz), top);
    KeptUse(s1, s2, r);
    m.UvmFree(r, sz);
    WithoutTree(m.lo, m.hi, free2, s2, Now(m), r);
    ApartTrans(s, s1, s2, r);
    ThenGone(s, s2, Now(m), r);
    if top.trapframe in s.use {
      HeldStays(s, Now(m), r, top.trapframe);
    }
  }

  lemma HeldStays(s: Snap, t: Snap, r: nat, f: nat)
    requires Gone(s, t, r) && f in s.use && s.use[f] == Held
    ensures f in t.use && t.use[f] == Held
  {
    hide Elsewhere;
  }

  lemma KeptUse(s: Snap, t: Snap, r: nat)
    requires Unmapping(s.mem, s.at, s.use, t.mem, t.use, r, TRAPFRAME, 1, false)
    ensures t.use == s.use
  {
  }

  // ---------- the program ----------

  type Word64 = x: nat | x < 0x1_0000_0000_0000_0000
  const WORD32 := 0x1_0000_0000

  /** A program header; `load` says whether it is to be loaded. */
  datatype Segment = Segment(load: bool, off: Word64, vaddr: Word64, filesz: Word64, memsz: Word64)

  /** The program headers as far as they can be read. */
  type Headers = seq<Option<Segment>>

  /** The bytes of the file that a segment is filled with; offset and count are cut to 32 bits. */
  function Bytes(file: seq<Byte>, h: Segment): (s: seq<Byte>)
    ensures |s| <= h.filesz
  {
    var off, n := h.off % WORD32, h.filesz % WORD32;
    if n > 0 && off + n <= |file| then file[off..off + n] else []
  }

  /** The size of the program after the first `k` headers. */
  function Size(hs: Headers, k: nat): (n: nat)
    requires k <= |hs|
    ensures forall j: nat | j < k && hs[j].Some? && hs[j].value.load :: hs[j].value.vaddr + hs[j].value.memsz <= n
  {
    if k == 0 then 0
    else if hs[k - 1].Some? && hs[k - 1].value.load then
      var end := hs[k - 1].value.vaddr + hs[k - 1].value.memsz;
      if end < Size(hs, k - 1) then Size(hs, k - 1) else end
    else Size(hs, k - 1)
  }

  lemma {:induction false} SizeGrows(hs: Headers, j: nat, k: nat)
    requires j <= k <= |hs|
    ensures Size(hs, j) <= Size(hs, k)
  {
    if j < k {
      SizeGrows(hs, j, k - 1);
    }
  }

  /** Header `k` can be loaded. */
  predicate HeaderOk(hs: Headers, file: seq<Byte>, k: nat)
    requires k < |hs|
  {
    hs[k].Some? &&
    var h := hs[k].value;
    h.load ==>
      && h.filesz <= h.memsz && h.vaddr + h.memsz < 0x1_0000_0000_0000_0000 && Size(hs, k + 1) > 0
      && h.vaddr % PGSIZE == 0
      && (h.filesz % WORD32 == 0 || h.off % WORD32 + h.filesz % WORD32 <= |file|)
  }

  predicate Loadable(hs: Headers, file: seq<Byte>) {
    forall k | 0 <= k < |hs| :: HeaderOk(hs, file, k)
  }

  /** Byte `x` of the program after the first `k` headers: the last segment that covers it says, and
      what none covers is zero. */
  function ProgramByte(hs: Headers, file: seq<Byte>, k: nat, x: nat): (b: Byte)
    requires k <= |hs|
  {
    if k == 0 then 0
    else
      var h := if hs[k - 1].Some? then hs[k - 1].value else Segment(false, 0, 0, 0, 0);
      if h.load && h.vaddr <= x < h.vaddr + |Bytes(file, h)| then Bytes(file, h)[x - h.vaddr]
      else ProgramByte(hs, file, k - 1, x)
  }

  /** The size is the end of some segment to be loaded, and none ends beyond it. */
  lemma {:induction false} SizeIsMax(hs: Headers, k: nat)
    requires k <= |hs|
    ensures Size(hs, k) == 0
            || exists j: nat | j < k :: && hs[j].Some? && hs[j].value.load
                                        && Size(hs, k) == hs[j].value.vaddr + hs[j].value.memsz
    ensures forall j: nat | j < k && hs[j].Some? && hs[j].value.load ::
              hs[j].value.vaddr + hs[j].value.memsz <= Size(hs, k)
  {
    if k > 0 {
      SizeIsMax(hs, k - 1);
    }
  }

  /** Segment `h` says what is at `x`. */
  predicate Covers(h: Option<Segment>, x: nat) {
    h.Some? && h.value.load && h.value.vaddr <= x < h.value.vaddr + h.value.filesz % 0x1_0000_0000
  }

  /** The last header counts if its segment covers `x`. */
  lemma ProgramByteStep(hs: Headers, file: seq<Byte>, k: nat, x: nat)
    requires k < |hs| && HeaderOk(hs, file, k)
    ensures !Covers(hs[k], x) ==> ProgramByte(hs, file, k + 1, x) == ProgramByte(hs, file, k, x)
    ensures Covers(hs[k], x) ==> var at := hs[k].value.off % 0x1_0000_0000 + x - hs[k].value.vaddr;
                                 at < |file| && ProgramByte(hs, file, k + 1, x) == file[at]
  {
    hide Size;
    if hs[k].value.load {
      BytesRead(file, hs[k].value);
    }
  }

  /** What is at `x` comes from the file: from the place the last segment that covers `x` says ... */
  lemma {:induction false} ProgramByteIs(hs: Headers, file: seq<Byte>, k: nat, x: nat, j: nat)
    requires j < k <= |hs| && forall i: nat | i < k :: HeaderOk(hs, file, i)
    requires Covers(hs[j], x) && forall i: nat | j < i < k :: !Covers(hs[i], x)
    ensures var at := hs[j].value.off % 0x1_0000_0000 + x - hs[j].value.vaddr;
            at < |file| && ProgramByte(hs, file, k, x) == file[at]
  {
    hide HeaderOk, ProgramByte, Covers;
    ProgramByteStep(hs, file, k - 1, x);
    if j < k - 1 {
      ProgramByteIs(hs, file, k - 1, x, j);
    }
  }

  /** ... and what none covers is zero. */
  lemma {:induction false} ProgramByteZero(hs: Headers, file: seq<Byte>, k: nat, x: nat)
    requires k <= |hs| && forall i: nat | i < k :: HeaderOk(hs, file, i) && !Covers(hs[i], x)
    ensures ProgramByte(hs, file, k, x) == 0
  {
    hide HeaderOk, Covers;
    if k > 0 {
      ProgramByteZero(hs, file, k - 1, x);
      ProgramByteStep(hs, file, k - 1, x);
    }
  }

  /** The program's memory so far. */
  ghost predicate Holds(s: Snap, r: nat, hs: Headers, file: seq<Byte>, k: nat, n: nat)
    requires k <= |hs|
  {
    forall x: nat | x < n * PGSIZE :: ByteAt(s.mem, s.at, r, x) == ProgramByte(hs, file, k, x) as int
  }

  /** Beyond the program's size there is nothing. */
  lemma {:induction false} ZeroBeyond(hs: Headers, file: seq<Byte>, k: nat, x: nat)
    requires k <= |hs| && Size(hs, k) <= x
    requires forall j: nat | j < k :: hs[j].Some? && (hs[j].value.load ==> hs[j].value.filesz <= hs[j].value.memsz)
    ensures ProgramByte(hs, file, k, x) == 0
  {
    hide Bytes;
    if k > 0 {
      SizeGrows(hs, k - 1, k);
      ZeroBeyond(hs, file, k - 1, x);
    }
  }

  /** Puts a page's worth of the file, or less, at the page boundary `va`. */
  method LoadPage(m: PhysicalMemory, r: nat, va: nat, text: seq<Byte>)
    requires Good(m) && Pos(r, 2, 0) in m.at && va % PGSIZE == 0 && |text| <= PGSIZE
    requires Accessible(m.mem, m.at, r, va / PGSIZE)
    modifies m
    ensures Good(m) && m.at == old(m.at) && m.use == old(m.use) && m.free == old(m.free)
    ensures Same(old(m.mem), m.at, m.mem, m.at) && Apart(old(Now(m)), Now(m), r)
    ensures Poked(old(m.mem), m.at, m.mem, r, va, text)
  {
    hide Ok, Flat, Private, Poked, Apart, Same, Accessible, Patch, ByteAt;
    var f := m.WalkAddr(r, va / PGSIZE);
    m.mem := m.mem[f.value := Patch(m.mem[f.value], 0, text)];
    Poke(m.lo, m.hi, old(m.mem), m.free, m.at, m.use, r, va, text, f.value, m.mem);
    PokedApart(old(Now(m)), Now(m), r, va, text);
  }

  /** Loads `sz` bytes of the file from `off` on at the page boundary `va`; the pages are there. */
  method LoadSeg(m: PhysicalMemory, r: nat, va: nat, file: seq<Byte>, off: nat, sz: nat) returns (ok: bool)
    requires Good(m) && Pos(r, 2, 0) in m.at && va % PGSIZE == 0 && off < WORD32 && sz < WORD32 - PGSIZE
             && |file| < WORD32
    requires forall x: nat | va <= x < va + sz :: Accessible(m.mem, m.at, r, x / PGSIZE)
    modifies m
    ensures Good(m) && m.at == old(m.at) && m.use == old(m.use) && m.free == old(m.free)
    ensures Same(old(m.mem), m.at, m.mem, m.at) && Apart(old(Now(m)), Now(m), r)
    ensures ok <==> sz == 0 || off + sz <= |file|
    ensures ok ==> Poked(old(m.mem), m.at, m.mem, r, va, if sz == 0 then [] else file[off..off + sz])
  {
    hide Ok, Flat, Private, Poked, Apart, Same, Accessible, Patch, ByteAt;
    var i: nat := 0;
    PokedNone(m.mem, m.at, r, va);
    ApartSelf(Now(m), r);
    while i < sz
      invariant i % PGSIZE == 0 && i < sz + PGSIZE && Good(m) && m.at == old(m.at) && m.use == old(m.use)
                && m.free == old(m.free)
      invariant Same(old(m.mem), m.at, m.mem, m.at) && Apart(old(Now(m)), Now(m), r)
      invariant i == 0 || off + Min(i, sz) <= |file|
      invariant Poked(old(m.mem), m.at, m.mem, r, va, if i == 0 then [] else file[off..off + Min(i, sz)])
    {
      ghost var s := Now(m);
      SameAccess(old(m.mem), m.mem, m.at, r, (va + i) / PGSIZE);
      var n := if sz - i < PGSIZE then sz - i else PGSIZE;
      var o := (off + i) % WORD32;
      if o + n > |file| {
        return false;
      }
      LoadPage(m, r, va + i, file[o..o + n]);
      ApartTrans(old(Now(m)), s, Now(m), r);
      PokedNext(old(m.mem), m.at, s.mem, m.mem, r, va, file, off, i, n);
      i := i + PGSIZE;
    }
    assert sz > 0 ==> Min(i, sz) == sz;
    return true;
  }

  function Min(a: nat, b: nat): (c: nat) {
    if a < b then a else b
  }

  lemma PokedNext(memS: Memory, at: Tables, mem: Memory, mem': Memory, r: nat, va: nat, file: seq<Byte>, off: nat,
                  i: nat, n: nat)
    requires off + i + n <= |file| && Same(memS, at, mem, at) && Same(mem, at, mem', at)
    requires Poked(memS, at, mem, r, va, if i == 0 then [] else file[off..off + i])
    requires Poked(mem, at, mem', r, va + i, file[off + i..off + i + n])
    ensures Poked(memS, at, mem', r, va, file[off..off + i + n]) && Same(memS, at, mem', at)
  {
    hide Poked, Same;
    var src := file[off..off + i + n];
    assert src[..i] == if i == 0 then [] else file[off..off + i];
    assert src[i..][..n] == file[off + i..off + i + n];
    PokedMore(memS, at, mem, mem', r, va, src, i, n);
    assert src[..i + n] == src;
  }

  lemma PagesCover(sz: nat, sz': nat)
    ensures sz <= Pages(sz) * PGSIZE < sz + PGSIZE && (sz <= sz' ==> Pages(sz) <= Pages(sz'))
    ensures Pages(Pages(sz) * PGSIZE) == Pages(sz) && Pages(Pages(sz) * PGSIZE + 2 * PGSIZE) == Pages(sz) + 2
  {
  }

  /** What uvmalloc asks for is there: up to the top pages nothing is mapped. */
  lemma RoomAbove(s: Snap, r: nat, n: nat, top: Top, b: nat)
    requires Image(s, r, n, top) && b <= TRAPFRAME
    ensures Pos(r, 2, 0) in s.at && User(s.mem, s.at, s.use, r, 0, n) && Unmapped(s.mem, s.at, r, n, b)
  {
    hide Flat;
  }

  lemma GrownImage(s: Snap, t: Snap, r: nat, n: nat, want: seq<Want>, top: Top)
    requires Image(s, r, n, top) && Added(s.mem, s.at, s.use, t.mem, t.at, t.use, r, n, want) && AllLeaves(want)
    requires n + |want| <= TRAPFRAME
    ensures Image(t, r, n + |want|, top)
  {
    hide Flat, UserLeaf, UserPage;
    AddedUser(s.mem, s.at, s.use, t.mem, t.at, t.use, r, n, want);
    forall v: nat | v < n + |want| ensures UserLeaf(Flat(t.mem, t.at, r, v), t.use, r, v) {
      if v < n {
        UserAt(s.mem, s.at, s.use, r, 0, n, v);
        LeafStays(Flat(s.mem, s.at, r, v), s.use, t.use, r, v);
      }
    }
  }

  lemma LeafStays(e: Pte, use: Uses, use': Uses, r: nat, v: nat)
    requires UserLeaf(e, use, r, v) && forall f | f in use :: f in use' && use'[f] == use[f]
    ensures UserLeaf(e, use', r, v)
  {
  }

  lemma SameImage(s: Snap, t: Snap, r: nat, n: nat, top: Top)
    requires Image(s, r, n, top) && t.at == s.at && t.use == s.use && Same(s.mem, s.at, t.mem, s.at)
    ensures Image(t, r, n, top)
  {
    hide Flat;
  }

  /** New pages are zero, and so is the program there. */
  lemma GrownHolds(lo: nat, hi: nat, free: seq<nat>, s: Snap, t: Snap, r: nat, hs: Headers, file: seq<Byte>, k: nat,
                   n: nat, more: nat)
    requires Ok(lo, hi, s.mem, free, s.at, s.use) && Private(s.mem, s.at, s.use)
    requires k <= |hs| && Holds(s, r, hs, file, k, n) && Size(hs, k) <= n * PGSIZE && n + more <= MAXVPN
    requires forall j: nat | j < k :: HeaderOk(hs, file, j)
    requires Added(s.mem, s.at, s.use, t.mem, t.at, t.use, r, n, Zeroes(more))
    ensures Holds(t, r, hs, file, k, n + more)
  {
    hide Flat, Ok, ByteAt, Added, Private, HeaderOk;
    forall x: nat | x < (n + more) * PGSIZE ensures ByteAt(t.mem, t.at, r, x) == ProgramByte(hs, file, k, x) as int {
      var v := x / PGSIZE;
      if v < n {
        OldByte(lo, hi, free, s, t, r, n, Zeroes(more), x);
      } else {
        NewByte(s, t, r, n, more, x);
        Readable(hs, file, k);
        ZeroBeyond(hs, file, k, x);
      }
    }
  }

  lemma Readable(hs: Headers, file: seq<Byte>, k: nat)
    requires k <= |hs| && forall j: nat | j < k :: HeaderOk(hs, file, j)
    ensures forall j: nat | j < k :: hs[j].Some? && (hs[j].value.load ==> hs[j].value.filesz <= hs[j].value.memsz)
  {
    hide Size;
    forall j: nat | j < k ensures hs[j].Some? && (hs[j].value.load ==> hs[j].value.filesz <= hs[j].value.memsz) {
      assert HeaderOk(hs, file, j);
    }
  }

  lemma OldByte(lo: nat, hi: nat, free: seq<nat>, s: Snap, t: Snap, r: nat, n: nat, want: seq<Want>, x: nat)
    requires Ok(lo, hi, s.mem, free, s.at, s.use) && Private(s.mem, s.at, s.use) && x / PGSIZE < n
    requires Added(s.mem, s.at, s.use, t.mem, t.at, t.use, r, n, want)
    ensures ByteAt(t.mem, t.at, r, x) == ByteAt(s.mem, s.at, r, x)
  {
    hide Flat, ByteAt, Private, LeavesOk, TreeOk, Partition;
    SameByte(s.mem, s.at, s.use, t.mem, t.at, s.use, r, x);
  }

  lemma NewByte(s: Snap, t: Snap, r: nat, n: nat, more: nat, x: nat)
    requires Added(s.mem, s.at, s.use, t.mem, t.at, t.use, r, n, Zeroes(more)) && n <= x / PGSIZE < n + more <= MAXVPN
    ensures ByteAt(t.mem, t.at, r, x) == 0
  {
    hide Flat;
    assert UserPage(t.mem, t.at, t.use, r, n + (x / PGSIZE - n), Zeroes(more)[x / PGSIZE - n]);
  }

  /** The next segment is loaded over what was there. */
  lemma LoadedHolds(s: Snap, t: Snap, r: nat, hs: Headers, file: seq<Byte>, k: nat, n: nat)
    requires k < |hs| && Holds(s, r, hs, file, k, n) && hs[k].Some? && t.at == s.at
    requires var h := hs[k].value; if h.load then Poked(s.mem, s.at, t.mem, r, h.vaddr, Bytes(file, h)) else t == s
    ensures Holds(t, r, hs, file, k + 1, n)
  {
    hide ByteAt, Bytes;
  }

  /** The pages of a segment are there. */
  lemma Reachable(s: Snap, r: nat, hs: Headers, file: seq<Byte>, k: nat, n: nat, x: nat)
    requires k <= |hs| && Holds(s, r, hs, file, k, n) && x < n * PGSIZE
    ensures Accessible(s.mem, s.at, r, x / PGSIZE)
  {
    hide ByteAt, Accessible;
    ByteThere(s.mem, s.at, r, x);
  }

  /** Loads the segments one by one, growing the program as needed. */
  method LoadProgram(m: PhysicalMemory, r: nat, hs: Headers, file: seq<Byte>, ghost top: Top)
    returns (ok: bool, sz: nat)
    requires Good(m) && TopOk(m, top) && Image(Now(m), r, 0, top) && m.lo <= m.hi <= m.lo + MEMPAGES && |file| < WORD32
    modifies m
    ensures Good(m) && TopOk(m, top) && Image(Now(m), r, Pages(sz), top) && Apart(old(Now(m)), Now(m), r)
            && sz <= MEMPAGES * PGSIZE
    ensures ok ==> Loadable(hs, file) && sz == Size(hs, |hs|) && Holds(Now(m), r, hs, file, |hs|, Pages(sz))
                   && |old(m.free)| <= |m.free| + 3 * Pages(sz)
    ensures !ok ==> !Loadable(hs, file) || |old(m.free)| < 3 * Pages(Size(hs, |hs|))
  {
    hide Ok, Flat, Private, Apart, Image, Added, User, Unmapped, Zeroes, Same, ByteAt, Poked, Accessible, Holds, Bytes,
         Pages;
    sz := 0;
    var i := 0;
    ApartSelf(Now(m), r);
    PagesCover(0, 0);
    HoldsNothing(Now(m), r, hs, file);
    while i < |hs|
      invariant i <= |hs| && sz == Size(hs, i) <= MEMPAGES * PGSIZE && forall k: nat | k < i :: HeaderOk(hs, file, k)
      invariant Good(m) && TopOk(m, top) && Image(Now(m), r, Pages(sz), top) && Apart(old(Now(m)), Now(m), r)
      invariant Holds(Now(m), r, hs, file, i, Pages(sz)) && |old(m.free)| <= |m.free| + 3 * Pages(sz)
    {
      ghost var fine := HeaderOk(hs, file, i);
      if hs[i].None? {
        return false, sz;
      }
      var h := hs[i].value;
      if h.load {
        if h.memsz < h.filesz {
          return false, sz;
        }
        if (h.vaddr + h.memsz) % 0x1_0000_0000_0000_0000 < h.vaddr {
          return false, sz;
        }
        var got;
        got, sz := Extend(m, r, hs, file, i, sz, top, old(Now(m)));
        if !got {
          SizeGrows(hs, i + 1, |hs|);
          PagesCover(Size(hs, i + 1), Size(hs, |hs|));
          return false, sz;
        }
        if h.vaddr % PGSIZE != 0 {
          return false, sz;
        }
        forall x: nat | h.vaddr <= x < h.vaddr + h.filesz ensures Accessible(m.mem, m.at, r, x / PGSIZE) {
          PagesCover(sz, sz);
          Reachable(Now(m), r, hs, file, i, Pages(sz), x);
        }
        ghost var s := Now(m);
        RoomAbove(s, r, Pages(sz), top, 0);
        var loaded := LoadSeg(m, r, h.vaddr, file, h.off % WORD32, h.filesz % WORD32);
        ApartTrans(old(Now(m)), s, Now(m), r);
        SameImage(s, Now(m), r, Pages(sz), top);
        if !loaded {
          return false, sz;
        }
        BytesRead(file, h);
        LoadedHolds(s, Now(m), r, hs, file, i, Pages(sz));
      } else {
        LoadedHolds(Now(m), Now(m), r, hs, file, i, Pages(sz));
      }
      i := i + 1;
    }
    return true, sz;
  }

  lemma BytesRead(file: seq<Byte>, h: Segment)
    requires h.filesz % WORD32 == 0 || h.off % WORD32 + h.filesz % WORD32 <= |file|
    ensures Bytes(file, h)
            == if h.filesz % WORD32 == 0 then [] else file[h.off % WORD32..h.off % WORD32 + h.filesz % WORD32]
  {
  }

  lemma HoldsNothing(s: Snap, r: nat, hs: Headers, file: seq<Byte>)
    ensures Holds(s, r, hs, file, 0, 0)
  {
  }

  /** Room for the next segment: exec's call of uvmalloc. */
  method Extend(m: PhysicalMemory, r: nat, hs: Headers, file: seq<Byte>, i: nat, sz0: nat, ghost top: Top,
                ghost s0: Snap)
    returns (ok: bool, sz: nat)
    requires Good(m) && TopOk(m, top) && Image(Now(m), r, Pages(sz0), top) && m.lo <= m.hi <= m.lo + MEMPAGES
    requires i < |hs| && hs[i].Some? && hs[i].value.load && sz0 == Size(hs, i) <= MEMPAGES * PGSIZE
             && forall k: nat | k < i :: HeaderOk(hs, file, k)
    requires Holds(Now(m), r, hs, file, i, Pages(sz0)) && Apart(s0, Now(m), r)
    modifies m
    ensures Good(m) && TopOk(m, top) && Image(Now(m), r, Pages(sz), top) && Apart(s0, Now(m), r)
    ensures !ok ==> sz == sz0 && (Size(hs, i + 1) == 0 || |old(m.free)| < 3 * (Pages(Size(hs, i + 1)) - Pages(sz0)))
    ensures ok ==> 0 < sz == Size(hs, i + 1) <= MEMPAGES * PGSIZE && Holds(Now(m), r, hs, file, i, Pages(sz))
                   && |old(m.free)| <= |m.free| + 3 * (Pages(sz) - Pages(sz0))
  {
    hide Ok, Flat, Private, Apart, Image, Added, User, Unmapped, Zeroes, ByteAt, Holds, Pages, HeaderOk, AllLeaves;
    ghost var s, free0 := Now(m), m.free;
    var h := hs[i].value;
    RoomAbove(s, r, Pages(sz0), top, m.hi - m.lo + 1);
    ghost var got;
    sz, got := m.UvmAlloc(r, sz0, h.vaddr + h.memsz);
    ghost var end := h.vaddr + h.memsz;
    ghost var more := if got && end >= sz0 then Pages(end) - Pages(sz0) else 0;
    PagesCover(sz0, end);
    ZeroesMore(more);
    AddedApart(m.lo, m.hi, free0, s, Now(m), r, Pages(sz0), Zeroes(more));
    ApartTrans(s0, s, Now(m), r);
    ApartUse(s, Now(m), r, top.trapframe);
    if got && end >= sz0 {
      UserLimit(m.lo, m.hi, m.mem, m.free, m.at, m.use, r, Pages(end));
    }
    ImageLimit(s, r, Pages(sz0), top);
    GrownImage(s, Now(m), r, Pages(sz0), Zeroes(more), top);
    PagesCover(end, end);
    GrownHolds(m.lo, m.hi, free0, s, Now(m), r, hs, file, i, Pages(sz0), more);
    if sz == 0 {
      return false, sz0;
    }
    return true, sz;
  }

  lemma ImageLimit(s: Snap, r: nat, n: nat, top: Top)
    requires Image(s, r, n, top)
    ensures n <= TRAPFRAME
  {
  }

  // ---------- the stack ----------

  const MAXARG := 32

  function Round16(n: nat): (r: nat) {
    (n + 15) / 16 * 16
  }

  /** Bytes of the stack used by the first `k` arguments, each with its NUL and aligned. */
  function StackUsed(argv: seq<seq<Byte>>, k: nat): (n: nat)
    requires k <= |argv|
  {
    if k == 0 then 0 else Round16(StackUsed(argv, k - 1) + |argv[k - 1]| + 1)
  }

  /** ... and by the array of pointers to them below. */
  function AllUsed(argv: seq<seq<Byte>>): (n: nat) {
    Round16(StackUsed(argv, |argv|) + 8 * (|argv| + 1))
  }

  /** The arguments are few enough and fit in the one page of stack. */
  predicate ArgsFit(argv: seq<seq<Byte>>) {
    |argv| <= MAXARG && AllUsed(argv) <= PGSIZE
  }

  lemma {:induction false} UsedGrows(argv: seq<seq<Byte>>, j: nat, k: nat)
    requires j <= k <= |argv|
    ensures StackUsed(argv, j) <= StackUsed(argv, k) <= AllUsed(argv)
    ensures j < k ==> StackUsed(argv, j) + |argv[j]| + 1 <= StackUsed(argv, k)
    decreases |argv| - j, |argv| - k
  {
    if k < |argv| {
      UsedGrows(argv, j, k + 1);
    }
    if j < k {
      UsedGrows(argv, j + 1, k);
    }
  }

  /** Every string, and the array after them, starts at the first multiple of 16 below that leaves room. */
  lemma StackLayout(argv: seq<seq<Byte>>, k: nat)
    requires k < |argv|
    ensures StackUsed(argv, 0) == 0
    ensures StackUsed(argv, k + 1) % 16 == 0
            && StackUsed(argv, k) + |argv[k]| + 1 <= StackUsed(argv, k + 1) < StackUsed(argv, k) + |argv[k]| + 17
    ensures AllUsed(argv) % 16 == 0
            && StackUsed(argv, |argv|) + 8 * |argv| + 8 <= AllUsed(argv) < StackUsed(argv, |argv|) + 8 * |argv| + 24
    ensures ArgsFit(argv) <==> |argv| <= 32 && AllUsed(argv) <= 4096
  {
  }

  /** The stack pointer aligned for RISC-V. */
  function AlignDown(sp: nat): (r: nat) {
    sp - sp % 16
  }

  lemma RoundDown(sz: nat, n: nat)
    requires sz % PGSIZE == 0 && n <= sz
    ensures AlignDown(sz - n) == sz - Round16(n) && n <= Round16(n) <= sz
  {
    assert sz % 16 == 0;
  }

  /** A pointer as it is stored, low byte first. */
  function Le64(w: nat, i: nat): (b: Byte) {
    if i == 0 then w % 256 else Le64(w / 256, i - 1)
  }

  function Words(ws: seq<nat>): (s: seq<Byte>) {
    seq(8 * |ws|, i requires 0 <= i < 8 * |ws| => Le64(ws[i / 8], i % 8))
  }

  /** Where the arguments are, for a stack that ends at `sz`, and the null pointer after them. */
  function Pointers(argv: seq<seq<Byte>>, sz: nat): (ws: seq<nat>)
    requires forall k: nat | k <= |argv| :: StackUsed(argv, k) <= sz
  {
    seq(|argv| + 1, k requires 0 <= k <= |argv| => if k < |argv| then sz - StackUsed(argv, k + 1) else 0)
  }

  ghost predicate TextAt(s: Snap, r: nat, a: nat, text: seq<Byte>) {
    forall i: nat | i < |text| :: ByteAt(s.mem, s.at, r, a + i) == text[i] as int
  }

  lemma TextStays(s: Snap, t: Snap, r: nat, a: nat, text: seq<Byte>, b: nat, other: seq<Byte>)
    requires TextAt(s, r, a, text) && t.at == s.at && Poked(s.mem, s.at, t.mem, r, b, other) && b + |other| <= a
    ensures TextAt(t, r, a, text)
  {
    hide ByteAt;
  }

  lemma TextThere(s: Snap, t: Snap, r: nat, b: nat, text: seq<Byte>)
    requires t.at == s.at && Poked(s.mem, s.at, t.mem, r, b, text)
    ensures TextAt(t, r, b, text)
  {
    hide ByteAt;
  }

  /** The bytes below `a` are as they were. */
  ghost predicate LowerSame(s: Snap, t: Snap, r: nat, a: nat) {
    forall x: nat | x < a :: ByteAt(t.mem, t.at, r, x) == ByteAt(s.mem, s.at, r, x)
  }

  lemma LowerStays(s: Snap, t: Snap, u: Snap, r: nat, a: nat, b: nat, text: seq<Byte>)
    requires LowerSame(s, t, r, a) && u.at == t.at && Poked(t.mem, t.at, u.mem, r, b, text) && a <= b
    ensures LowerSame(s, u, r, a)
  {
    hide ByteAt;
  }

  lemma LastPage(sz: nat, a: nat)
    requires sz % PGSIZE == 0 && sz <= a + PGSIZE
    ensures a < sz ==> a / PGSIZE == sz / PGSIZE - 1
  {
  }

  /** The page below `sz` can be used. */
  ghost predicate StackPage(s: Snap, r: nat, sz: nat) {
    PGSIZE <= sz && Accessible(s.mem, s.at, r, sz / PGSIZE - 1)
  }

  /** copyout to the stack page, which is there. */
  method Push(m: PhysicalMemory, r: nat, sz: nat, sp: nat, text: seq<Byte>, ghost s0: Snap)
    requires Good(m) && Pos(r, 2, 0) in m.at && sz % PGSIZE == 0 && StackPage(Now(m), r, sz)
    requires sz - PGSIZE <= sp && sp + |text| <= sz && Apart(s0, Now(m), r)
    modifies m
    ensures Good(m) && m.at == old(m.at) && m.use == old(m.use) && m.free == old(m.free) && Apart(s0, Now(m), r)
    ensures Same(old(m.mem), m.at, m.mem, m.at) && Poked(old(m.mem), m.at, m.mem, r, sp, text)
    ensures StackPage(Now(m), r, sz)
  {
    hide Ok, Flat, Private, Apart, Same, Poked, Accessible, ByteAt;
    var ok, done := m.CopyOut(r, sp, text);
    LastPage(sz, sp + done);
    assert ok && text[..done] == text;
    SameAccess(old(m.mem), m.mem, m.at, r, sz / PGSIZE - 1);
    PokedApart(old(Now(m)), Now(m), r, sp, text);
    ApartTrans(s0, old(Now(m)), Now(m), r);
  }

  /** Argument `k` is on the stack at `a`. */
  ghost predicate PushedAt(s: Snap, r: nat, sz: nat, argv: seq<seq<Byte>>, k: nat, a: nat)
    requires k < |argv|
  {
    StackUsed(argv, k + 1) <= sz && a == sz - StackUsed(argv, k + 1) && TextAt(s, r, a, argv[k] + [0])
  }

  /** The first arguments are on the stack, where `ustack` says. */
  ghost predicate Pushed(s: Snap, r: nat, sz: nat, argv: seq<seq<Byte>>, ustack: seq<nat>) {
    |ustack| <= |argv| && forall k: nat | k < |ustack| :: PushedAt(s, r, sz, argv, k, ustack[k])
  }

  /** An argument is not touched by what is stored below it. */
  lemma PushedStays(s: Snap, t: Snap, r: nat, sz: nat, argv: seq<seq<Byte>>, k: nat, a: nat, n: nat, b: nat,
                    text: seq<Byte>)
    requires k < n <= |argv| && PushedAt(s, r, sz, argv, k, a) && t.at == s.at && Poked(s.mem, s.at, t.mem, r, b, text)
    requires b + |text| + StackUsed(argv, n) <= sz
    ensures PushedAt(t, r, sz, argv, k, a)
  {
    hide TextAt, Poked, StackUsed, AllUsed;
    UsedGrows(argv, k + 1, n);
    TextStays(s, t, r, a, argv[k] + [0], b, text);
  }

  /** Moving the stack pointer down by a string and aligning it. */
  lemma PushSpace(argv: seq<seq<Byte>>, sz: nat, k: nat)
    requires k < |argv| && sz % PGSIZE == 0 && StackUsed(argv, k) + |argv[k]| + 1 <= sz
    ensures StackUsed(argv, k + 1) <= sz
            && AlignDown(sz - StackUsed(argv, k) - (|argv[k]| + 1)) == sz - StackUsed(argv, k + 1)
    ensures StackUsed(argv, k) + |argv[k]| + 1 <= StackUsed(argv, k + 1) <= AllUsed(argv)
  {
    hide Round16, AlignDown;
    RoundDown(sz, StackUsed(argv, k) + |argv[k]| + 1);
    UsedGrows(argv, k, k + 1);
  }

  lemma PushedMore(s: Snap, t: Snap, r: nat, sz: nat, argv: seq<seq<Byte>>, ustack: seq<nat>, sp: nat)
    requires Pushed(s, r, sz, argv, ustack) && |ustack| < |argv| && t.at == s.at
    requires StackUsed(argv, |ustack| + 1) <= sz && sp == sz - StackUsed(argv, |ustack| + 1)
    requires Poked(s.mem, s.at, t.mem, r, sp, argv[|ustack|] + [0])
    ensures Pushed(t, r, sz, argv, ustack + [sp])
  {
    hide TextAt, Poked, StackUsed, AllUsed;
    var n := |ustack|;
    var text := argv[n] + [0];
    TextThere(s, t, r, sp, text);
    UsedGrows(argv, n, n + 1);
    hide PushedAt;
    var all := ustack + [sp];
    forall k: nat | k < |all| ensures PushedAt(t, r, sz, argv, k, all[k]) {
      if k < n {
        PushedStays(s, t, r, sz, argv, k, ustack[k], n, sp, text);
      } else {
        PushedHere(t, r, sz, argv, n, sp);
      }
    }
  }

  lemma PushedHere(t: Snap, r: nat, sz: nat, argv: seq<seq<Byte>>, k: nat, sp: nat)
    requires k < |argv| && StackUsed(argv, k + 1) <= sz && sp == sz - StackUsed(argv, k + 1)
             && TextAt(t, r, sp, argv[k] + [0])
    ensures PushedAt(t, r, sz, argv, k, sp)
  {
  }

  lemma PushedAll(s: Snap, t: Snap, r: nat, sz: nat, argv: seq<seq<Byte>>, ustack: seq<nat>)
    requires Pushed(s, r, sz, argv, ustack) && |ustack| == |argv| && AllUsed(argv) <= sz && t.at == s.at
    requires Poked(s.mem, s.at, t.mem, r, sz - AllUsed(argv), Words(ustack + [0]))
    requires |Words(ustack + [0])| + StackUsed(argv, |argv|) <= AllUsed(argv)
    ensures Arguments(t, r, sz, argv)
  {
    hide TextAt, Poked, StackUsed, AllUsed, Words;
    forall k: nat | k <= |argv| ensures StackUsed(argv, k) <= sz {
      UsedGrows(argv, k, |argv|);
    }
    assert ustack + [0] == Pointers(argv, sz) by {
      assert forall k: nat | k < |argv| :: PushedAt(s, r, sz, argv, k, ustack[k]);
    }
    TextThere(s, t, r, sz - AllUsed(argv), Words(ustack + [0]));
    forall k: nat | k < |argv| ensures TextAt(t, r, sz - StackUsed(argv, k + 1), argv[k] + [0]) {
      assert PushedAt(s, r, sz, argv, k, ustack[k]);
      PushedStays(s, t, r, sz, argv, k, ustack[k], |argv|, sz - AllUsed(argv), Words(ustack + [0]));
    }
  }

  lemma ArraySpace(argv: seq<seq<Byte>>, sz: nat)
    requires sz % PGSIZE == 0 && StackUsed(argv, |argv|) + 8 * (|argv| + 1) <= sz
    ensures AllUsed(argv) <= sz && AlignDown(sz - StackUsed(argv, |argv|) - (|argv| + 1) * 8) == sz - AllUsed(argv)
    ensures StackUsed(argv, |argv|) + 8 * (|argv| + 1) <= AllUsed(argv)
  {
    hide Round16, AlignDown, StackUsed;
    RoundDown(sz, StackUsed(argv, |argv|) + 8 * (|argv| + 1));
  }

  lemma NonePushed(s: Snap, r: nat, sz: nat, argv: seq<seq<Byte>>)
    requires PGSIZE <= sz
    ensures Pushed(s, r, sz, argv, []) && StackUsed(argv, 0) == 0 && LowerSame(s, s, r, sz - PGSIZE)
  {
  }

  /** Pushes the arguments and the array of pointers to them on the stack that ends at `sz`. */
  method PushArguments(m: PhysicalMemory, r: nat, sz: nat, argv: seq<seq<Byte>>, ghost s0: Snap)
    returns (ok: bool, sp: nat)
    requires Good(m) && Pos(r, 2, 0) in m.at && sz % PGSIZE == 0 && 2 * PGSIZE <= sz && StackPage(Now(m), r, sz)
    requires Apart(s0, Now(m), r) && forall i | 0 <= i < |argv| :: |argv[i]| < PGSIZE
    modifies m
    ensures Good(m) && m.at == old(m.at) && m.use == old(m.use) && m.free == old(m.free) && Apart(s0, Now(m), r)
    ensures Same(old(m.mem), m.at, m.mem, m.at) && LowerSame(old(Now(m)), Now(m), r, sz - PGSIZE)
    ensures ok <==> ArgsFit(argv)
    ensures ok ==> sp == sz - AllUsed(argv) && Arguments(Now(m), r, sz, argv) && Argv(Now(m), r, sz, sp, argv)
  {
    hide Ok, Flat, Private, Apart, Same, Poked, Accessible, ByteAt, StackUsed, AllUsed, LowerSame, Words, Pushed,
         Arguments, AlignDown, StackPage, Argv;
    var argc, ustack: seq<nat> := 0, [];
    var stackbase := sz - PGSIZE;
    sp := sz;
    NonePushed(Now(m), r, sz, argv);
    PokedNone(m.mem, m.at, r, 0);
    while argc < |argv|
      invariant argc <= |argv| && argc <= MAXARG && sp == sz - StackUsed(argv, argc) && stackbase <= sp
      invariant |ustack| == argc && Pushed(Now(m), r, sz, argv, ustack)
      invariant Good(m) && m.at == old(m.at) && m.use == old(m.use) && m.free == old(m.free) && Apart(s0, Now(m), r)
      invariant Same(old(m.mem), m.at, m.mem, m.at) && LowerSame(old(Now(m)), Now(m), r, stackbase)
      invariant StackPage(Now(m), r, sz)
    {
      if argc >= MAXARG {
        return false, sp;
      }
      var text := argv[argc] + [0];
      ghost var s := Now(m);
      PushSpace(argv, sz, argc);
      sp := AlignDown(sp - |text|);
      if sp < stackbase {
        return false, sp;
      }
      Push(m, r, sz, sp, text, s0);
      SameTrans(old(m.mem), s.mem, m.mem, m.at);
      LowerStays(old(Now(m)), s, Now(m), r, stackbase, sp, text);
      PushedMore(s, Now(m), r, sz, argv, ustack, sp);
      ustack := ustack + [sp];
      argc := argc + 1;
    }
    var text := Words(ustack + [0]);
    WordsLength(ustack + [0]);
    ghost var s := Now(m);
    ArraySpace(argv, sz);
    sp := AlignDown(sp - (argc + 1) * 8);
    if sp < stackbase {
      return false, sp;
    }
    Push(m, r, sz, sp, text, s0);
    SameTrans(old(m.mem), s.mem, m.mem, m.at);
    LowerStays(old(Now(m)), s, Now(m), r, stackbase, sp, text);
    PushedAll(s, Now(m), r, sz, argv, ustack);
    StackBelow(Now(m), r, sz);
    ArgvStands(Now(m), r, sz, argv);
    return true, sp;
  }

  lemma WordsLength(ws: seq<nat>)
    ensures |Words(ws)| == 8 * |ws|
  {
  }

  lemma SameTrans(mem: Memory, mem1: Memory, mem2: Memory, at: Tables)
    requires Same(mem, at, mem1, at) && Same(mem1, at, mem2, at)
    ensures Same(mem, at, mem2, at)
  {
    hide Flat;
  }

  /** The strings of `argv` are on the stack, and below them the array of pointers to them. */
  ghost predicate Arguments(s: Snap, r: nat, sz: nat, argv: seq<seq<Byte>>) {
    && (forall k: nat | k <= |argv| :: StackUsed(argv, k) <= sz) && AllUsed(argv) <= sz
    && (forall k: nat | k < |argv| :: TextAt(s, r, sz - StackUsed(argv, k + 1), argv[k] + [0]))
    && TextAt(s, r, sz - AllUsed(argv), Words(Pointers(argv, sz)))
  }

  /** The number in the eight bytes at `a`, the low byte first. */
  ghost function WordAt(s: Snap, r: nat, a: nat): (w: int) {
    ByteAt(s.mem, s.at, r, a) + 0x100 * ByteAt(s.mem, s.at, r, a + 1) + 0x1_0000 * ByteAt(s.mem, s.at, r, a + 2)
    + 0x100_0000 * ByteAt(s.mem, s.at, r, a + 3) + 0x1_0000_0000 * ByteAt(s.mem, s.at, r, a + 4)
    + 0x100_0000_0000 * ByteAt(s.mem, s.at, r, a + 5) + 0x1_0000_0000_0000 * ByteAt(s.mem, s.at, r, a + 6)
    + 0x100_0000_0000_0000 * ByteAt(s.mem, s.at, r, a + 7)
  }

  /** The eight bytes at `a` can be read. */
  ghost predicate WordReadable(s: Snap, r: nat, a: nat) {
    forall x: nat | a <= x < a + 8 :: 0 <= ByteAt(s.mem, s.at, r, x)
  }

  /** What main finds at the stack pointer: word `k` is the address of argument `k`, which stands above
      the array and below the end of the stack with its NUL, and the word after them is zero. */
  ghost predicate Argv(s: Snap, r: nat, sz: nat, sp: nat, argv: seq<seq<Byte>>) {
    && (forall k: nat | k < |argv| :: && WordReadable(s, r, sp + 8 * k)
                                      && var a := WordAt(s, r, sp + 8 * k);
                                         && sp + 8 * (|argv| + 1) <= a && a + |argv[k]| < sz
                                         && TextAt(s, r, a, argv[k] + [0]))
    && WordReadable(s, r, sp + 8 * |argv|) && WordAt(s, r, sp + 8 * |argv|) == 0
  }

  lemma Le64Next(w: nat)
    ensures Le64(w, 0) == w % 256 && forall i: nat | i > 0 :: Le64(w, i) == Le64(w / 256, i - 1)
  {
  }

  lemma Le64Half(w: nat)
    ensures var h := w / 256 / 256 / 256 / 256;
            && w == Le64(w, 0) + 0x100 * Le64(w, 1) + 0x1_0000 * Le64(w, 2) + 0x100_0000 * Le64(w, 3)
                    + 0x1_0000_0000 * h
            && Le64(w, 4) == Le64(h, 0) && Le64(w, 5) == Le64(h, 1) && Le64(w, 6) == Le64(h, 2)
            && Le64(w, 7) == Le64(h, 3)
  {
    hide Le64;
    Le64Next(w);
    Le64Next(w / 256);
    Le64Next(w / 256 / 256);
    Le64Next(w / 256 / 256 / 256);
  }

  /** Eight bytes hold a number below 2^64. */
  lemma Le64Sum(w: nat)
    requires w < 0x1_0000_0000_0000_0000
    ensures w == Le64(w, 0) + 0x100 * Le64(w, 1) + 0x1_0000 * Le64(w, 2) + 0x100_0000 * Le64(w, 3)
                 + 0x1_0000_0000 * Le64(w, 4) + 0x100_0000_0000 * Le64(w, 5) + 0x1_0000_0000_0000 * Le64(w, 6)
                 + 0x100_0000_0000_0000 * Le64(w, 7)
  {
    hide Le64;
    Le64Half(w);
    Le64Half(w / 256 / 256 / 256 / 256);
  }

  lemma WordThere(s: Snap, r: nat, a: nat, ws: seq<nat>, k: nat)
    requires k < |ws| && ws[k] < 0x1_0000_0000_0000_0000 && TextAt(s, r, a, Words(ws))
    ensures WordReadable(s, r, a + 8 * k) && WordAt(s, r, a + 8 * k) == ws[k]
  {
    hide ByteAt, Le64;
    forall x: nat | a + 8 * k <= x < a + 8 * k + 8
      ensures ByteAt(s.mem, s.at, r, x) == Le64(ws[k], x - a - 8 * k) as int
    {
      var i := x - a;
      assert i / 8 == k && i % 8 == i - 8 * k;
      assert ByteAt(s.mem, s.at, r, a + i) == Words(ws)[i] as int;
    }
    Le64Sum(ws[k]);
  }

  lemma StackBelow(s: Snap, r: nat, sz: nat)
    requires StackPage(s, r, sz)
    ensures sz < 0x1_0000_0000_0000_0000
  {
  }

  lemma ArgvStands(s: Snap, r: nat, sz: nat, argv: seq<seq<Byte>>)
    requires Arguments(s, r, sz, argv) && sz < 0x1_0000_0000_0000_0000
    ensures Argv(s, r, sz, sz - AllUsed(argv), argv)
  {
    hide TextAt, Words, StackUsed, AllUsed, WordAt, WordReadable;
    var sp, ws := sz - AllUsed(argv), Pointers(argv, sz);
    UsedAll(argv);
    forall k: nat | k < |argv|
      ensures WordReadable(s, r, sp + 8 * k) && WordAt(s, r, sp + 8 * k) == sz - StackUsed(argv, k + 1)
      ensures StackUsed(argv, k + 1) + 8 * (|argv| + 1) <= AllUsed(argv) && |argv[k]| < StackUsed(argv, k + 1)
    {
      UsedGrows(argv, k, k + 1);
      UsedGrows(argv, k + 1, |argv|);
      WordThere(s, r, sp, ws, k);
    }
    WordThere(s, r, sp, ws, |argv|);
  }

  lemma UsedAll(argv: seq<seq<Byte>>)
    ensures StackUsed(argv, |argv|) + 8 * (|argv| + 1) <= AllUsed(argv)
  {
    hide StackUsed;
  }

  // ---------- exec ----------

  lemma LowerTrans(s: Snap, t: Snap, u: Snap, r: nat, a: nat, b: nat)
    requires LowerSame(s, t, r, a) && LowerSame(t, u, r, b) && a <= b
    ensures LowerSame(s, u, r, a)
  {
    hide ByteAt;
  }

  /** Two new pages above the program: what is below stays, and both can be used. */
  lemma TwoPages(lo: nat, hi: nat, free: seq<nat>, s: Snap, t: Snap, r: nat, n: nat)
    requires Ok(lo, hi, s.mem, free, s.at, s.use) && Private(s.mem, s.at, s.use) && n + 2 <= MAXVPN
    requires Added(s.mem, s.at, s.use, t.mem, t.at, t.use, r, n, Zeroes(2))
    ensures LowerSame(s, t, r, n * PGSIZE) && Accessible(t.mem, t.at, r, n + 1) && Flat(t.mem, t.at, r, n).V()
  {
    hide Flat, Ok, ByteAt, Private, Added, Accessible;
    forall x: nat | x < n * PGSIZE ensures ByteAt(t.mem, t.at, r, x) == ByteAt(s.mem, s.at, r, x) {
      OldByte(lo, hi, free, s, t, r, n, Zeroes(2), x);
    }
    NewByte(s, t, r, n, 2, (n + 1) * PGSIZE);
    ByteThere(t.mem, t.at, r, (n + 1) * PGSIZE);
    NewByte(s, t, r, n, 2, n * PGSIZE);
    ByteThere(t.mem, t.at, r, n * PGSIZE);
    AccessibleHere(t.mem, t.at, r, n);
  }

  lemma AccessibleHere(mem: Memory, at: Tables, r: nat, v: nat)
    requires Accessible(mem, at, r, v)
    ensures Flat(mem, at, r, v).V()
  {
  }

  /** The guard page taken from the process. */
  lemma Guarded(lo: nat, hi: nat, free: seq<nat>, s: Snap, t: Snap, r: nat, n: nat, g: nat, top: Top)
    requires Ok(lo, hi, s.mem, free, s.at, s.use) && Private(s.mem, s.at, s.use) && Image(s, r, n, top) && g < n
    requires t.at == s.at && t.use == s.use && KeepsData(s.mem, t.mem, s.use)
    requires forall r': nat, v: nat | v < MAXVPN ::
               Flat(t.mem, t.at, r', v) == if r' == r && v == g then NoUser(Flat(s.mem, s.at, r, g))
                                           else Flat(s.mem, s.at, r', v)
    ensures Apart(s, t, r) && Private(t.mem, t.at, t.use) && Image(t, r, n, top) && LowerSame(s, t, r, g * PGSIZE)
    ensures !Accessible(t.mem, t.at, r, g)
    ensures forall v: nat | v != g && Accessible(s.mem, s.at, r, v) :: Accessible(t.mem, t.at, r, v)
  {
    hide Flat, Ok, ByteAt;
    GrownApart(lo, hi, free, s, t, r);
    forall r': nat, v: nat | v < MAXVPN ensures Reaches(Flat(t.mem, t.at, r', v), t.use, r', v) {
      assert Reaches(Flat(s.mem, s.at, r', v), s.use, r', v);
    }
    forall v: nat | v < n ensures UserLeaf(Flat(t.mem, t.at, r, v), t.use, r, v) {
      UserAt(s.mem, s.at, s.use, r, 0, n, v);
    }
    forall x: nat | x < g * PGSIZE ensures ByteAt(t.mem, t.at, r, x) == ByteAt(s.mem, s.at, r, x) {
      LeavesHere(lo, hi, s.mem, free, s.at, s.use);
      SameByte(s.mem, s.at, s.use, t.mem, t.at, s.use, r, x);
    }
  }

  lemma LeavesHere(lo: nat, hi: nat, mem: Memory, free: seq<nat>, at: Tables, use: Uses)
    requires Ok(lo, hi, mem, free, at, use)
    ensures LeavesOk(mem, at, use)
  {
  }

  /** The part of exec after loading: a guard page and a page of stack with the arguments. */
  method SetUpStack(m: PhysicalMemory, r: nat, sz0: nat, argv: seq<seq<Byte>>, ghost top: Top, ghost s0: Snap)
    returns (ok: bool, sz: nat, sp: nat)
    requires Good(m) && TopOk(m, top) && Image(Now(m), r, Pages(sz0), top) && m.lo <= m.hi <= m.lo + MEMPAGES
    requires Apart(s0, Now(m), r) && forall i | 0 <= i < |argv| :: |argv[i]| < PGSIZE
    modifies m
    ensures Good(m) && TopOk(m, top) && Image(Now(m), r, Pages(sz), top) && Apart(s0, Now(m), r)
    ensures !ok ==> !ArgsFit(argv) || |old(m.free)| < 6
    ensures ok ==> && ArgsFit(argv) && sz == (Pages(sz0) + 2) * PGSIZE && sp == sz - AllUsed(argv)
                   && Arguments(Now(m), r, sz, argv) && Argv(Now(m), r, sz, sp, argv)
                   && LowerSame(old(Now(m)), Now(m), r, Pages(sz0) * PGSIZE) && !Accessible(m.mem, m.at, r, Pages(sz0))
  {
    hide Ok, Flat, Private, Apart, Image, Added, User, Unmapped, Zeroes, ByteAt, Pages, AllLeaves, LowerSame,
         Accessible, Same,
         Arguments, Argv, ArgsFit, AllUsed, KeepsData;
    ghost var s, free0, n := Now(m), m.free, Pages(sz0);
    PagesCover(sz0, sz0);
    sz := Pages(sz0) * PGSIZE;
    RoomAbove(s, r, n, top, m.hi - m.lo + 1);
    var sz1, got := m.UvmAlloc(r, sz, sz + 2 * PGSIZE);
    ghost var more := if got then 2 else 0;
    ghost var s1, free1 := Now(m), m.free;
    ZeroesMore(more);
    AddedApart(m.lo, m.hi, free0, s, s1, r, n, Zeroes(more));
    ApartTrans(s0, s, s1, r);
    ApartUse(s, s1, r, top.trapframe);
    ImageLimit(s, r, n, top);
    if got {
      UserLimit(m.lo, m.hi, m.mem, m.free, m.at, m.use, r, n + 2);
    }
    GrownImage(s, s1, r, n, Zeroes(more), top);
    if sz1 == 0 {
      return false, sz, 0;
    }
    sz := sz1;
    TwoPages(m.lo, m.hi, free0, s, s1, r, n);
    RoomAbove(s1, r, n + 2, top, 0);
    var panic := m.UvmClear(r, sz / PGSIZE - 2);
    ghost var s2 := Now(m);
    Guarded(m.lo, m.hi, free1, s1, s2, r, n + 2, n, top);
    ApartTrans(s0, s1, s2, r);
    ok, sp := PushArguments(m, r, sz, argv, s0);
    SameImage(s2, Now(m), r, n + 2, top);
    SameAccess(s2.mem, m.mem, m.at, r, n);
    LowerTrans(s, s1, s2, r, n * PGSIZE, n * PGSIZE);
    LowerTrans(s, s2, Now(m), r, n * PGSIZE, sz - PGSIZE);
    PagesOf(n + 2);
  }

  lemma PagesOf(n: nat)
    ensures Pages(n * PGSIZE) == n
  {
  }

  /** The new program: its page table, its size and its stack pointer; main is called with argc. */
  datatype Program = Program(r: nat, sz: nat, sp: nat, argc: nat)

  /** The memory of the tree `q` is given back, that of the tree `r` was taken, and nothing else changed. */
  ghost predicate Replaced(s: Snap, t: Snap, q: nat, r: nat) {
    && (forall f | f in s.use && !OfTree(s.use[f], q) :: f in t.use && t.use[f] == s.use[f])
    && (forall f | f in t.use :: if f in s.use then t.use[f] == s.use[f] && !OfTree(s.use[f], q)
                                 else OfTree(t.use[f], r))
    && (forall r': nat, v: nat | r' != q && r' != r
        && v < MAXVPN :: Flat(t.mem, t.at, r', v) == Flat(s.mem, s.at, r', v))
    && (forall r': nat, a: nat | r' != q && r' != r :: ByteAt(t.mem, t.at, r', a) == ByteAt(s.mem, s.at, r', a))
  }

  /** The new program is in memory: its segments over zeroes, a page nobody can use, and the stack with
      the arguments. */
  ghost predicate Started(t: Snap, p: Program, top: Top, hs: Headers, file: seq<Byte>, argv: seq<seq<Byte>>) {
    var n := Pages(Size(hs, |hs|));
    && Image(t, p.r, n + 2, top) && p.sz == (n + 2) * PGSIZE && p.argc == |argv|
    && Holds(t, p.r, hs, file, |hs|, n) && !Accessible(t.mem, t.at, p.r, n)
    && AllUsed(argv) <= p.sz && p.sp == p.sz - AllUsed(argv) && p.sp % 16 == 0 && Arguments(t, p.r, p.sz, argv)
    && Argv(t, p.r, p.sz, p.sp, argv)
  }

  lemma OthersImage(s: Snap, t: Snap, r: nat, n: nat, top: Top, other: nat)
    requires Image(s, r, n, top) && other != r && Elsewhere(s, t, other) && Pos(r, 2, 0) in t.at
    requires forall f | f in s.use && s.use[f].LeafAt? && s.use[f].root == r :: f in t.use && t.use[f] == s.use[f]
    ensures Image(t, r, n, top)
  {
    hide Flat;
    forall v: nat | v < n ensures UserLeaf(Flat(t.mem, t.at, r, v), t.use, r, v) {
      UserAt(s.mem, s.at, s.use, r, 0, n, v);
    }
  }

  lemma OldImage(s: Snap, t: Snap, r: nat, n: nat, top: Top, other: nat)
    requires Image(s, r, n, top) && other != r && Apart(s, t, other)
    ensures Image(t, r, n, top)
  {
    hide Flat, Elsewhere, User, Unmapped;
    OthersImage(s, t, r, n, top, other);
  }

  lemma NewImage(s: Snap, t: Snap, r: nat, n: nat, top: Top, other: nat)
    requires Image(s, r, n, top) && other != r && Gone(s, t, other)
    ensures Image(t, r, n, top)
  {
    hide Flat, Elsewhere, User, Unmapped;
    OthersImage(s, t, r, n, top, other);
  }

  lemma UnchangedImage(s: Snap, t: Snap, r: nat, n: nat, top: Top)
    requires Image(s, r, n, top) && Unchanged(s, t)
    ensures Image(t, r, n, top)
  {
    hide Flat, ByteAt;
  }

  /** With the same uses, the free pages are the same. */
  lemma SameFree(lo: nat, hi: nat, free: seq<nat>, free': seq<nat>, use: Uses)
    requires Partition(lo, hi, free, use) && Partition(lo, hi, free', use)
    ensures forall f :: f in free <==> f in free'
  {
  }

  lemma BytesElsewhere(s: Snap, t: Snap, r: nat, other: nat, hs: Headers, file: seq<Byte>, n: nat, sz: nat,
                       argv: seq<seq<Byte>>)
    requires r != other && Elsewhere(s, t, other) && Holds(s, r, hs, file, |hs|, n) && Arguments(s, r, sz, argv)
    ensures Holds(t, r, hs, file, |hs|, n) && Arguments(t, r, sz, argv)
    ensures Accessible(t.mem, t.at, r, n) ==> Accessible(s.mem, s.at, r, n)
  {
    hide Flat, ByteAt, Words, StackUsed, AllUsed, ProgramByte;
  }

  lemma HoldsLower(s: Snap, t: Snap, r: nat, hs: Headers, file: seq<Byte>, n: nat)
    requires Holds(s, r, hs, file, |hs|, n) && LowerSame(s, t, r, n * PGSIZE)
    ensures Holds(t, r, hs, file, |hs|, n)
  {
    hide ByteAt, ProgramByte;
  }

  lemma NowReplaced(s: Snap, t: Snap, u: Snap, q: nat, r: nat)
    requires Apart(s, t, r) && Gone(t, u, q) && q != r
    ensures Replaced(s, u, q, r)
  {
    hide Flat, ByteAt;
  }

  lemma InUseRoot(s: Snap, lo: nat, hi: nat, free: seq<nat>, r: nat, n: nat, top: Top)
    requires Ok(lo, hi, s.mem, free, s.at, s.use) && Image(s, r, n, top)
    ensures r in s.use
  {
    RootInUse(s.mem, s.at, s.use, Pos(r, 2, 0));
  }

  lemma GoneElsewhere(s: Snap, t: Snap, r: nat)
    requires Gone(s, t, r)
    ensures Elsewhere(s, t, r)
  {
  }

  lemma Aligned(argv: seq<seq<Byte>>, sz: nat)
    requires sz % PGSIZE == 0 && AllUsed(argv) <= sz
    ensures (sz - AllUsed(argv)) % 16 == 0
  {
    hide StackUsed;
  }

  /** Replaces the memory of the process with page table `oldr` by the program.  If anything fails, no
      page is lost and no byte of any process is different. */
  method Exec(m: PhysicalMemory, top: Top, oldr: nat, oldsz: nat, headers: Option<Headers>, file: seq<Byte>,
              argv: seq<seq<Byte>>)
    returns (p: Option<Program>)
    requires Good(m) && TopOk(m, top) && Image(Now(m), oldr, Pages(oldsz), top) && m.lo <= m.hi <= m.lo + MEMPAGES
    requires |file| < WORD32 && forall i | 0 <= i < |argv| :: |argv[i]| < PGSIZE
    modifies m
    ensures Good(m) && TopOk(m, top)
    ensures p.None? ==> Unchanged(old(Now(m)), Now(m)) && Image(Now(m), oldr, Pages(oldsz), top)
                        && forall f :: f in m.free <==> f in old(m.free)
    ensures p.None? ==> || headers.None? || !Loadable(headers.value, file) || !ArgsFit(argv)
                        || |old(m.free)| < 11 + 3 * Pages(Size(headers.value, |headers.value|))
    ensures p.Some? ==> && headers.Some? && Loadable(headers.value, file) && ArgsFit(argv)
                        && Started(Now(m), p.value, top, headers.value, file, argv)
                        && Replaced(old(Now(m)), Now(m), oldr, p.value.r)
  {
    hide Ok, Flat, Private, Apart, Gone, Image, Unchanged, Elsewhere, ByteAt, Holds, Arguments, Argv, LowerSame,
         Accessible,
         Loadable,
         ArgsFit, AllUsed, Pages, Size, Replaced;
    ghost var s, n0 := Now(m), Pages(oldsz);
    ApartSelf(s, 0);
    if headers.None? {
      return None;
    }
    var hs := headers.value;
    var r := ProcPagetable(m, top);
    if r.None? {
      UnchangedImage(s, Now(m), oldr, n0, top);
      FreeAgain(m, old(m.free), s);
      return None;
    }
    ApartUse(s, Now(m), r.value, top.trapframe);
    ghost var s1 := Now(m);
    PagesCover(0, 0);
    var ok, sz := LoadProgram(m, r.value, hs, file, top);
    ApartTrans(s, s1, Now(m), r.value);
    ghost var s2 := Now(m);
    ghost var n := Pages(sz);
    var sp := 0;
    if ok {
      ok, sz, sp := SetUpStack(m, r.value, sz, argv, top, s);
    }
    ghost var s3 := Now(m);
    if !ok {
      ProcFreePagetable(m, r.value, sz, top);
      CameAndWent(m.lo, m.hi, old(m.free), s, s3, Now(m), r.value);
      UnchangedImage(s, Now(m), oldr, n0, top);
      FreeAgain(m, old(m.free), s);
      return None;
    }
    InUseRoot(s, m.lo, m.hi, old(m.free), oldr, n0, top);
    OldImage(s, s3, oldr, n0, top, r.value);
    HoldsLower(s2, s3, r.value, hs, file, n);
    ProcFreePagetable(m, oldr, oldsz, top);
    FreshRoot(m.lo, m.hi, s.mem, old(m.free), s.at, s.use, r.value);
    NowReplaced(s, s3, Now(m), oldr, r.value);
    PagesOf(n + 2);
    NewImage(s3, Now(m), r.value, n + 2, top, oldr);
    GoneElsewhere(s3, Now(m), oldr);
    BytesElsewhere(s3, Now(m), r.value, oldr, hs, file, n, sz, argv);
    WithinStack(argv, sz);
    Aligned(argv, sz);
    ImageLimit(Now(m), r.value, n + 2, top);
    ArgvStands(Now(m), r.value, sz, argv);
    return Some(Program(r.value, sz, sp, |argv|));
  }

  lemma WithinStack(argv: seq<seq<Byte>>, sz: nat)
    requires ArgsFit(argv) && PGSIZE <= sz
    ensures AllUsed(argv) <= sz
  {
  }

  lemma FreeAgain(m: PhysicalMemory, free: seq<nat>, s: Snap)
    requires Good(m) && Ok(m.lo, m.hi, s.mem, free, s.at, s.use) && Unchanged(s, Now(m))
    ensures m.use == s.use && forall f :: f in m.free <==> f in free
  {
    SameFree(m.lo, m.hi, m.free, free, m.use);
  }
}
