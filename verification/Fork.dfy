/** The memory of a process from its creation to its end: allocproc, freeproc and the memory side of
    fork of kernel/proc.c. */
module Fork {
  import opened Prelude
  import opened PageTables
  import opened PageTableFree
  import opened VirtualMemory
  import opened Exec

  /** p->trapframe, p->pagetable and p->sz. */
  datatype Process = Process(trapframe: nat, r: nat, sz: nat)

  /** Every mapping and every byte of every process is the same. */
  ghost predicate SameView(s: Snap, t: Snap) {
    && (forall r: nat, v: nat | v < MAXVPN :: Flat(t.mem, t.at, r, v) == Flat(s.mem, s.at, r, v))
    && (forall r: nat, a: nat :: ByteAt(t.mem, t.at, r, a) == ByteAt(s.mem, s.at, r, a))
  }

  /** A page was taken to be held by the kernel. */
  ghost predicate Took(s: Snap, t: Snap, f: nat) {
    f !in s.use && t.use == s.use[f := Held] && t.at == s.at && SameView(s, t)
  }

  /** A page held by the kernel was given back. */
  ghost predicate GaveUp(s: Snap, t: Snap, f: nat) {
    f in s.use && s.use[f] == Held && t.use == s.use - {f} && t.at == s.at && SameView(s, t)
  }

  /** New pages: `tf` is held, the others are for the tree `r`; nothing else is different. */
  ghost predicate Created(s: Snap, t: Snap, tf: nat, r: nat) {
    && tf !in s.use && r !in s.use
    && (forall f | f in s.use :: f in t.use && t.use[f] == s.use[f])
    && (forall f | f in t.use && f !in s.use && f != tf :: OfTree(t.use[f], r))
    && (forall p | p in s.at :: p in t.at && t.at[p] == s.at[p])
    && Elsewhere(s, t, r)
  }

  /** The page `tf` and the tree `r` with all its memory are given back, and nothing else is different. */
  ghost predicate Reaped(s: Snap, t: Snap, tf: nat, r: nat) {
    && (forall f | f in t.use :: f in s.use && t.use[f] == s.use[f])
    && (forall f | f in s.use :: f in t.use <==> f != tf && !OfTree(s.use[f], r))
    && (forall p | p in s.at && p.root != r :: p in t.at && t.at[p] == s.at[p])
    && (forall p | p in t.at :: p.root != r)
    && Elsewhere(s, t, r)
  }

  // ---------- one page ----------

  lemma TookPage(lo: nat, hi: nat, free: seq<nat>, s: Snap, t: Snap, f: nat, page: Page)
    requires Ok(lo, hi, s.mem, free, s.at, s.use) && Private(s.mem, s.at, s.use) && free != [] && f == free[0]
    requires page.Data? && |page.bytes| == PGSIZE && t == Snap(s.mem[f := page], s.at, s.use[f := Held])
    ensures Took(s, t, f) && Ok(lo, hi, t.mem, free[1..], t.at, t.use) && Private(t.mem, t.at, t.use)
  {
    hide Flat, Ok, ByteAt;
    Holding(lo, hi, s.mem, free, s.at, s.use, f, page, t.mem);
    LeavesHere(lo, hi, s.mem, free, s.at, s.use);
    forall r: nat, a: nat ensures ByteAt(t.mem, t.at, r, a) == ByteAt(s.mem, s.at, r, a) {
      SameByte(s.mem, s.at, s.use, t.mem, t.at, s.use, r, a);
    }
    forall r: nat, v: nat | v < MAXVPN ensures Reaches(Flat(t.mem, t.at, r, v), t.use, r, v) {
      assert Reaches(Flat(s.mem, s.at, r, v), s.use, r, v);
    }
  }

  lemma GaveUpPage(lo: nat, hi: nat, free: seq<nat>, free': seq<nat>, s: Snap, t: Snap, f: nat, page: Page)
    requires Ok(lo, hi, s.mem, free, s.at, s.use) && Private(s.mem, s.at, s.use) && f in s.use && s.use[f] == Held
    requires t == Snap(s.mem[f := page], s.at, s.use - {f}) && Partition(lo, hi, free', t.use)
    ensures GaveUp(s, t, f) && Ok(lo, hi, t.mem, free', t.at, t.use) && Private(t.mem, t.at, t.use)
  {
    hide Flat, ByteAt, TreeOk, LeavesOk, Partition;
    ForgetLeaf(s.mem, s.at, s.use, f, page);
    FewerLeaves(s.mem, s.at, s.use, f);
    LeavesKept(s.mem, s.at, t.use, t.mem, t.at, t.use);
    forall r: nat, a: nat ensures ByteAt(t.mem, t.at, r, a) == ByteAt(s.mem, s.at, r, a) {
      SameByte(s.mem, s.at, s.use, t.mem, t.at, t.use, r, a);
    }
    forall r: nat, v: nat | v < MAXVPN ensures Reaches(Flat(t.mem, t.at, r, v), t.use, r, v) {
      assert Reaches(Flat(s.mem, s.at, r, v), s.use, r, v);
    }
  }

  /** kfree of a held page. */
  method GiveUp(m: PhysicalMemory, f: nat)
    requires Good(m) && f in m.use && m.use[f] == Held
    modifies m
    ensures Good(m) && GaveUp(old(Now(m)), Now(m), f)
  {
    hide Ok, Flat, Private, Partition, GaveUp;
    Parts(m.lo, m.hi, m.mem, m.free, m.at, m.use);
    InRange(m.lo, m.hi, m.free, m.use, f);
    var panic := m.Kfree(f);
    GaveUpPage(m.lo, m.hi, old(m.free), m.free, old(Now(m)), Now(m), f, Junk(1));
  }

  // ---------- composing ----------

  lemma TookAndBack(s: Snap, t: Snap, u: Snap, w: Snap, f: nat)
    requires Took(s, t, f) && Unchanged(t, u) && GaveUp(u, w, f)
    ensures Unchanged(s, w)
  {
    hide Flat, ByteAt;
    assert w.use == s.use;
  }

  lemma TookThenMade(s: Snap, t: Snap, u: Snap, f: nat, r: nat)
    requires Took(s, t, f) && Apart(t, u, r) && r !in t.use
    ensures Created(s, u, f, r) && f in u.use && u.use[f] == Held
  {
    hide Flat, ByteAt;
  }

  lemma CreatedMore(s: Snap, t: Snap, u: Snap, tf: nat, r: nat)
    requires Created(s, t, tf, r) && Apart(t, u, r)
    ensures Created(s, u, tf, r)
  {
    hide Flat, ByteAt, OfTree;
  }

  lemma ThenReaped(s: Snap, t: Snap, u: Snap, tf: nat, r: nat)
    requires GaveUp(s, t, tf) && Gone(t, u, r)
    ensures Reaped(s, u, tf, r)
  {
    hide Flat, ByteAt;
  }

  /** A process made and reaped leaves no trace. */
  lemma BornAndReaped(lo: nat, hi: nat, free: seq<nat>, s: Snap, t: Snap, u: Snap, tf: nat, r: nat)
    requires Ok(lo, hi, s.mem, free, s.at, s.use) && Created(s, t, tf, r) && Reaped(t, u, tf, r)
    ensures Unchanged(s, u)
  {
    hide Ok, ByteAt, Flat, OfTree;
    FreshRoot(lo, hi, s.mem, free, s.at, s.use, r);
    assert u.use == s.use;
    forall v: nat ensures Flat(u.mem, u.at, r, v) == NONE {
      NoTree(u.mem, u.at, r, v);
    }
    forall a: nat ensures ByteAt(u.mem, u.at, r, a) == ByteAt(s.mem, s.at, r, a) {
      NoByte(u.mem, u.at, r, a);
      NoByte(s.mem, s.at, r, a);
    }
  }

  // ---------- processes ----------

  /** A page for the trapframe and a page table with no user memory; on failure nothing changes. */
  method AllocProc(m: PhysicalMemory, trampoline: nat) returns (p: Option<Process>)
    requires Good(m) && !(m.lo <= trampoline < m.hi)
    modifies m
    ensures Good(m)
    ensures p.None? ==> Unchanged(old(Now(m)), Now(m)) && |old(m.free)| < 6
    ensures p.Some? ==> var top := Top(trampoline, p.value.trapframe);
              && Created(old(Now(m)), Now(m), p.value.trapframe, p.value.r) && TopOk(m, top) && p.value.sz == 0
              && Image(Now(m), p.value.r, 0, top) && |old(m.free)| <= |m.free| + 6
  {
    hide Ok, Flat, Private, Partition, Took, GaveUp, Created, Apart, Image, Unchanged;
    ghost var s := Now(m);
    Parts(m.lo, m.hi, m.mem, m.free, m.at, m.use);
    var tf := m.Kalloc();
    if tf.None? {
      ApartSelf(s, 0);
      return None;
    }
    ghost var s1 := Now(m);
    TookPage(m.lo, m.hi, old(m.free), s, s1, tf.value, Junk(5));
    var top := Top(trampoline, tf.value);
    var r := ProcPagetable(m, top);
    if r.None? {
      ghost var s2 := Now(m);
      UsesSame(s1, s2);
      GiveUp(m, tf.value);
      TookAndBack(s, s1, s2, Now(m), tf.value);
      return None;
    }
    TookThenMade(s, s1, Now(m), tf.value, r.value);
    return Some(Process(tf.value, r.value, 0));
  }

  lemma UsesSame(s: Snap, t: Snap)
    requires Unchanged(s, t)
    ensures t.use == s.use
  {
  }

  /** Gives back everything the process has, and nothing else. */
  method FreeProc(m: PhysicalMemory, p: Process, ghost trampoline: nat)
    requires Good(m) && TopOk(m, Top(trampoline, p.trapframe))
             && Image(Now(m), p.r, Pages(p.sz), Top(trampoline, p.trapframe))
    modifies m
    ensures Good(m) && Reaped(old(Now(m)), Now(m), p.trapframe, p.r)
  {
    hide Ok, Flat, Private, Partition, GaveUp, Gone, Image, Reaped, Pages;
    ghost var s, top := Now(m), Top(trampoline, p.trapframe);
    GiveUp(m, p.trapframe);
    ghost var s1 := Now(m);
    GaveUpImage(s, s1, p.trapframe, p.r, Pages(p.sz), top);
    ProcFreePagetable(m, p.r, p.sz, top);
    ThenReaped(s, s1, Now(m), p.trapframe, p.r);
  }

  lemma GaveUpImage(s: Snap, t: Snap, f: nat, r: nat, n: nat, top: Top)
    requires GaveUp(s, t, f) && Image(s, r, n, top)
    ensures Image(t, r, n, top) && f !in t.use
  {
    hide Flat, ByteAt;
    forall v: nat | v < n ensures UserLeaf(Flat(t.mem, t.at, r, v), t.use, r, v) {
      UserAt(s.mem, s.at, s.use, r, 0, n, v);
    }
  }

  /** The child's memory is the parent's, byte for byte. */
  ghost predicate Copied(s: Snap, t: Snap, r: nat, child: nat) {
    forall a: nat :: ByteAt(t.mem, t.at, child, a) == ByteAt(s.mem, s.at, r, a)
  }

  lemma OutsideImage(s: Snap, r: nat, n: nat, top: Top, a: nat)
    requires Image(s, r, n, top) && n <= a / PGSIZE
    ensures ByteAt(s.mem, s.at, r, a) == -1
  {
    hide Flat;
    var v := a / PGSIZE;
    if v < TRAPFRAME {
      assert Flat(s.mem, s.at, r, v) == NONE;
    } else if v < MAXVPN {
      assert v == TRAPFRAME || v == TRAMPOLINE;
    }
  }

  lemma CopiedBytes(lo: nat, hi: nat, free: seq<nat>, s: Snap, t: Snap, r: nat, child: nat, n: nat, top: Top, top': Top)
    requires Ok(lo, hi, s.mem, free, s.at, s.use) && Image(s, r, n, top) && Image(t, child, n, top')
    requires Added(s.mem, s.at, s.use, t.mem, t.at, t.use, child, 0, Copies(s.mem, s.at, r, n))
    ensures Copied(s, t, r, child)
  {
    hide Flat, Ok, ByteAt, Added, Image;
    forall a: nat ensures ByteAt(t.mem, t.at, child, a) == ByteAt(s.mem, s.at, r, a) {
      if n <= a / PGSIZE {
        OutsideImage(s, r, n, top, a);
        OutsideImage(t, child, n, top', a);
      } else {
        ImageUser(s, r, n, top);
        CopiedByte(lo, hi, free, s, t, r, child, n, a);
      }
    }
  }

  lemma ImageUser(s: Snap, r: nat, n: nat, top: Top)
    requires Image(s, r, n, top)
    ensures Pos(r, 2, 0) in s.at && User(s.mem, s.at, s.use, r, 0, n) && Unmapped(s.mem, s.at, r, n, TRAPFRAME)
            && n <= TRAPFRAME
  {
  }

  lemma CopiedByte(lo: nat, hi: nat, free: seq<nat>, s: Snap, t: Snap, r: nat, child: nat, n: nat, a: nat)
    requires Ok(lo, hi, s.mem, free, s.at, s.use) && User(s.mem, s.at, s.use, r, 0, n) && a / PGSIZE < n
    requires Added(s.mem, s.at, s.use, t.mem, t.at, t.use, child, 0, Copies(s.mem, s.at, r, n))
    ensures ByteAt(t.mem, t.at, child, a) == ByteAt(s.mem, s.at, r, a)
  {
    hide Flat, TreeOk, Partition;
    var v := a / PGSIZE;
    UserAt(s.mem, s.at, s.use, r, 0, n, v);
    assert LeafOk(s.mem, s.at, Flat(s.mem, s.at, r, v).frame, r, v);
    assert UserPage(t.mem, t.at, t.use, child, 0 + v, Copies(s.mem, s.at, r, n)[v]);
  }

  /** A new process with a copy of the parent's memory.  If memory runs out anywhere, no page is lost and
      no byte of any process is different. */
  method Fork(m: PhysicalMemory, trampoline: nat, p: Process) returns (np: Option<Process>)
    requires Good(m) && TopOk(m, Top(trampoline, p.trapframe))
             && Image(Now(m), p.r, Pages(p.sz), Top(trampoline, p.trapframe))
    modifies m
    ensures Good(m) && TopOk(m, Top(trampoline, p.trapframe))
            && Image(Now(m), p.r, Pages(p.sz), Top(trampoline, p.trapframe))
    ensures np.None? ==> Unchanged(old(Now(m)), Now(m)) && (forall f :: f in m.free <==> f in old(m.free))
                         && |old(m.free)| < 6 + 3 * Pages(p.sz)
    ensures np.Some? ==> var top := Top(trampoline, np.value.trapframe);
              && np.value.sz == p.sz && TopOk(m, top) && Image(Now(m), np.value.r, Pages(p.sz), top)
              && Created(old(Now(m)), Now(m), np.value.trapframe, np.value.r)
              && Copied(old(Now(m)), Now(m), p.r, np.value.r) && Copied(old(Now(m)), Now(m), p.r, p.r)
  {
    hide Ok, Flat, Private, Partition, Created, Apart, Image, Unchanged, Reaped, Added, User, Unmapped, Copies,
         AllLeaves, Copied,
         Pages;
    ghost var s, n, top0 := Now(m), Pages(p.sz), Top(trampoline, p.trapframe);
    np := AllocProc(m, trampoline);
    if np.None? {
      UnchangedImage(s, Now(m), p.r, n, top0);
      FreeAgain(m, old(m.free), s);
      return;
    }
    var tf, r := np.value.trapframe, np.value.r;
    ghost var s1, free1, top := Now(m), m.free, Top(trampoline, tf);
    InUseRoot(s, m.lo, m.hi, old(m.free), p.r, n, top0);
    ParentKept(s, s1, tf, r, p.r, n, top0);
    ImageUser(s1, p.r, n, top0);
    RoomAbove(s1, r, 0, top, n);
    var ok := m.UvmCopy(p.r, r, p.sz);
    ghost var s2 := Now(m);
    ghost var want := if ok then Copies(s1.mem, s1.at, p.r, n) else [];
    CopiesMore(s1.mem, s1.at, s1.use, p.r, n, n);
    NoLeavesWanted();
    AddedApart(m.lo, m.hi, free1, s1, s2, r, 0, want);
    GrownImage(s1, s2, r, 0, want, top);
    ApartUse(s1, s2, r, tf);
    CreatedMore(s, s1, s2, tf, r);
    if !ok {
      PagesNone();
      FreeProc(m, np.value, trampoline);
      BornAndReaped(m.lo, m.hi, old(m.free), s, s2, Now(m), tf, r);
      UnchangedImage(s, Now(m), p.r, n, top0);
      FreeAgain(m, old(m.free), s);
      return None;
    }
    ParentKept(s, s2, tf, r, p.r, n, top0);
    CopiedBytes(m.lo, m.hi, free1, s1, s2, p.r, r, n, top0, top);
    CopyOfOld(s, s1, s2, tf, r, p.r);
    return Some(np.value.(sz := p.sz));
  }

  lemma NoLeavesWanted()
    ensures AllLeaves([])
  {
  }

  lemma PagesNone()
    ensures Pages(0) == 0
  {
  }

  /** A new process does not touch another one. */
  lemma ParentKept(s: Snap, t: Snap, tf: nat, r: nat, parent: nat, n: nat, top: Top)
    requires Created(s, t, tf, r) && Image(s, parent, n, top) && parent in s.use && top.trapframe in s.use
    ensures Image(t, parent, n, top) && parent != r && top.trapframe in t.use
            && t.use[top.trapframe] == s.use[top.trapframe]
    ensures Copied(s, t, parent, parent)
  {
    hide Flat, ByteAt, User, Unmapped;
    OthersImage(s, t, parent, n, top, r);
  }

  lemma CopyOfOld(s: Snap, t: Snap, u: Snap, tf: nat, r: nat, parent: nat)
    requires Copied(s, t, parent, parent) && Copied(t, u, parent, r)
    ensures Copied(s, u, parent, r)
  {
    hide ByteAt;
  }
}
