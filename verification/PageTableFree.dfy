/** Removing whole trees of page tables (freewalk of kernel/vm.c). */
module PageTableFree {
  import opened PageTables

  /** Table `q` hangs below the first `n` slots of table `p`. */
  predicate Under(p: Pos, q: Pos, n: nat)
    decreases p.level - q.level
  {
    q.level < p.level &&
    if q.level + 1 == p.level then Parent(q) == p && q.prefix % ENTRIES < n else Under(p, Parent(q), n)
  }

  predicate Below(p: Pos, q: Pos) {
    q == p || Under(p, q, ENTRIES)
  }

  lemma UnderSplit(p: Pos, q: Pos, i: nat)
    requires p.level > 0 && i < ENTRIES
    ensures Under(p, q, i + 1) <==> Under(p, q, i) || Below(Child(p, i), q)
    ensures !(Under(p, q, i) && Below(Child(p, i), q))
    decreases p.level - q.level
  {
    var c := Child(p, i);
    if q.level + 1 < p.level {
      UnderSplit(p, Parent(q), i);
      BelowUp(c, q);
    } else if q.level + 1 == p.level {
      assert Below(c, q) <==> q == c;
      assert Parent(q) == p && q.prefix % ENTRIES == i <==> q == c;
    }
  }

  /** A table other than `c` itself is below `c` exactly when its parent is. */
  lemma BelowUp(c: Pos, q: Pos)
    ensures q != c && q.level <= c.level ==> (Below(c, q) <==> Below(c, Parent(q)))
    ensures Below(c, q) ==> q.root == c.root && q.level <= c.level
    decreases c.level - q.level
  {
    if q.level + 1 < c.level {
      BelowUp(c, Parent(q));
    } else if q.level + 1 == c.level {
      assert q.prefix % ENTRIES < ENTRIES;
    }
  }

  /** The tables at positions `gone` are given back; nothing else changed but the table `except`. */
  ghost predicate Pruned(mem: Memory, at: Tables, use: Uses, mem': Memory, at': Tables, use': Uses, p: Pos, n: nat,
                         except: nat) {
    && (forall q | q in at' :: q in at && at'[q] == at[q])
    && (forall q | q in at :: q in at' <==> !Under(p, q, n))
    && (forall f | f in use' :: f in use && use'[f] == use[f])
    && (forall f | f in use :: f in use' <==> !(use[f].TableAt? && Under(p, use[f].pos, n)))
    && (forall f | f in use' && f in mem && f != except :: f in mem' && mem'[f] == mem[f])
  }

  ghost predicate Removed(mem: Memory, at: Tables, use: Uses, mem': Memory, at': Tables, use': Uses, p: Pos) {
    && (forall q | q in at' :: q in at && at'[q] == at[q])
    && (forall q | q in at :: q in at' <==> !Below(p, q))
    && (forall f | f in use' :: f in use && use'[f] == use[f])
    && (forall f | f in use :: f in use' <==> !(use[f].TableAt? && Below(p, use[f].pos)))
    && (forall f | f in use' && f in mem :: f in mem' && mem'[f] == mem[f])
  }

  /** No page is mapped by the tables below `p`. */
  ghost predicate Bare(mem: Memory, at: Tables, p: Pos) {
    forall q | q in at && q.level == 0 && Below(p, q) :: NoEntries(mem, at[q])
  }

  ghost predicate NoEntries(mem: Memory, t: nat) {
    forall i: nat | i < ENTRIES :: !EntryAt(mem, t, i).V()
  }

  lemma UnderNone(p: Pos, q: Pos)
    ensures !Under(p, q, 0)
    decreases p.level - q.level
  {
    if q.level + 1 < p.level {
      UnderNone(p, Parent(q));
    }
  }

  /** A slot without a table has nothing below it. */
  lemma EmptySlot(mem: Memory, at: Tables, use: Uses, c: Pos, q: Pos)
    requires TreeOk(mem, at, use) && c !in at && c.level < 2 && q in at
    ensures !Below(c, q)
    decreases c.level - q.level
  {
    BelowUp(c, q);
    if q.level < c.level {
      assert NodeOk(mem, at, use, q, at[q]);
      EmptySlot(mem, at, use, c, Parent(q));
    }
  }

  /** With the tables below slot `i` gone and the slot cleared, what is left is in order. */
  lemma SlotCleared(lo: nat, hi: nat, mem: Memory, free: seq<nat>, at: Tables, use: Uses, p: Pos, i: nat, mem1: Memory,
                    free1: seq<nat>, at1: Tables, use1: Uses, mem2: Memory)
    requires Ok(lo, hi, mem, free, at, use) && p in at && p.level > 0 && i < ENTRIES && Bare(mem, at, p)
    requires Removed(mem, at, use, mem1, at1, use1, Child(p, i)) && Partition(lo, hi, free1, use1)
    requires var t := at[p]; t in mem1 && mem1[t].Table? && |mem1[t].ptes| == ENTRIES
    requires var t := at[p]; mem2 == mem1[t := Table(mem1[t].ptes[i := NONE])]
    ensures Ok(lo, hi, mem2, free1, at1, use1)
  {
    hide Partition, Below, Under, Bare, LeavesOk, Flat;
    var t, c := at[p], Child(p, i);
    assert NodeOk(mem, at, use, p, t);
    assert !Below(c, p) by { BelowUp(c, p); }
    forall q | q in at1 ensures NodeOk(mem2, at1, use1, q, at1[q]) {
      NodeLeft(mem, at, use, mem1, at1, use1, mem2, p, i, q);
    }
    LeavesLeft(mem, at, use, mem1, at1, use1, mem2, p, i);
  }

  lemma NodeLeft(mem: Memory, at: Tables, use: Uses, mem1: Memory, at1: Tables, use1: Uses, mem2: Memory, p: Pos,
                 i: nat, q: Pos)
    requires TreeOk(mem, at, use) && p in at && p.level > 0 && i < ENTRIES && q in at1
    requires Removed(mem, at, use, mem1, at1, use1, Child(p, i)) && !Below(Child(p, i), p)
    requires var t := at[p]; t in mem1 && mem1[t].Table? && |mem1[t].ptes| == ENTRIES
    requires var t := at[p]; mem2 == mem1[t := Table(mem1[t].ptes[i := NONE])]
    ensures NodeOk(mem2, at1, use1, q, at1[q])
  {
    hide Below, Under;
    var c := Child(p, i);
    assert NodeOk(mem, at, use, q, at[q]) && NodeOk(mem, at, use, p, at[p]) && !Below(c, q);
    if q.level < 2 {
      BelowUp(c, q);
      LevelUp(c, Parent(q));
    }
    if q.level > 0 {
      forall j: nat | j < ENTRIES ensures EntryOk(at1, q, j, mem2[at1[q]].ptes[j]) {
        assert EntryOk(at, q, j, mem[at[q]].ptes[j]);
        BelowUp(c, Child(q, j));
        LevelUp(c, q);
      }
    }
  }

  lemma LevelUp(c: Pos, q: Pos)
    ensures q.level > c.level ==> !Below(c, q)
    ensures Below(c, c)
  {
  }

  lemma LeavesLeft(mem: Memory, at: Tables, use: Uses, mem1: Memory, at1: Tables, use1: Uses, mem2: Memory, p: Pos,
                   i: nat)
    requires TreeOk(mem, at, use) && LeavesOk(mem, at, use) && p in at && p.level > 0 && i < ENTRIES && Bare(mem, at, p)
    requires Removed(mem, at, use, mem1, at1, use1, Child(p, i))
    requires var t := at[p]; t in mem1 && mem1[t].Table? && |mem1[t].ptes| == ENTRIES && t in use
                             && use[t] == TableAt(p)
    requires var t := at[p]; mem2 == mem1[t := Table(mem1[t].ptes[i := NONE])]
    ensures LeavesOk(mem2, at1, use1)
  {
    hide *;
    forall f | f in use1 && use1[f].LeafAt? ensures LeafOk(mem2, at1, f, use1[f].root, use1[f].v) {
      LeafUnpruned(mem, at, use, mem1, at1, use1, mem2, p, i, f);
    }
    EachLeafOk(mem2, at1, use1);
  }

  lemma EachLeafOk(mem: Memory, at: Tables, use: Uses)
    requires forall f | f in use && use[f].LeafAt? :: LeafOk(mem, at, f, use[f].root, use[f].v)
    ensures LeavesOk(mem, at, use)
  {
  }

  lemma LeafUnpruned(mem: Memory, at: Tables, use: Uses, mem1: Memory, at1: Tables, use1: Uses, mem2: Memory, p: Pos,
                     i: nat, f: nat)
    requires TreeOk(mem, at, use) && LeavesOk(mem, at, use) && p in at && p.level > 0 && i < ENTRIES && Bare(mem, at, p)
    requires Removed(mem, at, use, mem1, at1, use1, Child(p, i)) && f in use1 && use1[f].LeafAt?
    requires var t := at[p]; t in mem1 && mem1[t].Table? && |mem1[t].ptes| == ENTRIES && t in use
                             && use[t] == TableAt(p)
    requires var t := at[p]; mem2 == mem1[t := Table(mem1[t].ptes[i := NONE])]
    ensures LeafOk(mem2, at1, f, use1[f].root, use1[f].v)
  {
    hide Below, Under;
    var r, v := use[f].root, use[f].v;
    var q := Node(r, v, 0);
    assert LeafOk(mem, at, f, r, v) && q in at && NodeOk(mem, at, use, q, at[q]);
    if Below(Child(p, i), q) {
      UnderChild(p, i, q);
      assert false;
    }
  }

  lemma UnderChild(p: Pos, i: nat, q: Pos)
    requires p.level > 0 && i < ENTRIES && Below(Child(p, i), q)
    ensures Below(p, q)
    decreases p.level - q.level
  {
    UnderSplit(p, q, i);
    UnderMore(p, q, i + 1, ENTRIES);
  }

  lemma UnderMore(p: Pos, q: Pos, n: nat, m: nat)
    requires n <= m && Under(p, q, n)
    ensures Under(p, q, m)
    decreases p.level - q.level
  {
    if q.level + 1 < p.level {
      UnderMore(p, Parent(q), n, m);
    }
  }

  // ---------- the loop of freewalk ----------

  lemma PruneStart(mem: Memory, at: Tables, use: Uses, p: Pos, t: nat)
    ensures Pruned(mem, at, use, mem, at, use, p, 0, t)
  {
    forall q ensures !Under(p, q, 0) {
      UnderNone(p, q);
    }
  }

  /** A valid entry here is a table's, and the tables below it map nothing either. */
  lemma PruneEntry(mem: Memory, at: Tables, use: Uses, p: Pos, i: nat)
    requires TreeOk(mem, at, use) && p in at && Bare(mem, at, p) && i < ENTRIES
    ensures var t := at[p]; t in mem && mem[t].Table? && |mem[t].ptes| == ENTRIES && t in use && use[t] == TableAt(p)
    ensures var e := mem[at[p]].ptes[i];
            e.V() ==> && p.level > 0 && !e.Leaf() && Child(p, i) in at && at[Child(p, i)] == e.frame
                      && Bare(mem, at, Child(p, i))
  {
    assert NodeOk(mem, at, use, p, at[p]);
    var e := mem[at[p]].ptes[i];
    if p.level == 0 {
      assert NoEntries(mem, at[p]) && EntryAt(mem, at[p], i) == e;
    } else {
      assert EntryOk(at, p, i, e);
      forall q | q in at && q.level == 0 && Below(Child(p, i), q) ensures NoEntries(mem, at[q]) {
        UnderChild(p, i, q);
      }
    }
  }

  lemma PruneSkip(memS: Memory, atS: Tables, useS: Uses, mem: Memory, at: Tables, use: Uses, p: Pos, i: nat)
    requires TreeOk(mem, at, use) && p in at && i < ENTRIES && p in atS && atS[p] == at[p]
    requires Pruned(memS, atS, useS, mem, at, use, p, i, at[p])
    requires var t := at[p]; t in mem && mem[t].Table? && |mem[t].ptes| == ENTRIES && !mem[t].ptes[i].V()
    ensures Pruned(memS, atS, useS, mem, at, use, p, i + 1, at[p])
  {
    assert NodeOk(mem, at, use, p, at[p]);
    forall q ensures Under(p, q, i) ==> Under(p, q, i + 1) {
      if Under(p, q, i) {
        UnderMore(p, q, i, i + 1);
      }
    }
    forall q | q in at ensures !Under(p, q, i + 1) {
      if p.level > 0 {
        assert EntryOk(at, p, i, mem[at[p]].ptes[i]);
        EmptySlot(mem, at, use, Child(p, i), q);
        UnderSplit(p, q, i);
      }
    }
    assert forall f | f in use && use[f].TableAt? :: use[f].pos in at;
  }

  lemma PruneStep(memS: Memory, atS: Tables, useS: Uses, mem: Memory, at: Tables, use: Uses, mem1: Memory, at1: Tables,
                  use1: Uses, mem2: Memory, p: Pos, i: nat)
    requires p in at && p.level > 0 && i < ENTRIES && Bare(mem, at, p)
    requires Pruned(memS, atS, useS, mem, at, use, p, i, at[p]) && Removed(mem, at, use, mem1, at1, use1, Child(p, i))
    requires forall q | q in at :: at[q] in mem && at[q] in use && use[at[q]] == TableAt(q)
    requires var t := at[p]; t in mem1 && mem1[t].Table? && |mem1[t].ptes| == ENTRIES
    requires var t := at[p]; mem2 == mem1[t := Table(mem1[t].ptes[i := NONE])]
    ensures p in at1 && at1[p] == at[p] && Bare(mem2, at1, p)
    ensures Pruned(memS, atS, useS, mem2, at1, use1, p, i + 1, at[p])
  {
    hide Under, Below, NoEntries;
    var c := Child(p, i);
    BelowUp(c, p);
    forall q ensures Under(p, q, i + 1) <==> Under(p, q, i) || Below(c, q) {
      UnderSplit(p, q, i);
    }
    forall q | q in at1 && q.level == 0 && Below(p, q) ensures NoEntries(mem2, at1[q]) {
      assert at[q] in use1 && mem2[at[q]] == mem[at[q]];
      SameEntries(mem, mem2, at[q]);
    }
  }

  lemma SameEntries(mem: Memory, mem': Memory, t: nat)
    requires NoEntries(mem, t) && t in mem && t in mem' && mem'[t] == mem[t]
    ensures NoEntries(mem', t)
  {
    assert forall i: nat :: EntryAt(mem', t, i) == EntryAt(mem, t, i);
  }

  lemma TablesUsed(mem: Memory, at: Tables, use: Uses)
    requires TreeOk(mem, at, use)
    ensures forall q | q in at :: at[q] in mem && at[q] in use && use[at[q]] == TableAt(q)
  {
    forall q | q in at ensures at[q] in mem && at[q] in use && use[at[q]] == TableAt(q) {
      assert NodeOk(mem, at, use, q, at[q]);
    }
  }

  lemma PruneEnd(memS: Memory, atS: Tables, useS: Uses, mem: Memory, at: Tables, use: Uses, p: Pos, t: nat, junk: Page)
    requires TreeOk(mem, at, use) && p in at && at[p] == t && p in atS && atS[p] == t
    requires Pruned(memS, atS, useS, mem, at, use, p, ENTRIES, t)
    ensures Removed(memS, atS, useS, mem[t := junk], at - {p}, use - {t}, p)
  {
    hide Under, NodeOk;
    assert NodeOk(mem, at, use, p, t);
    TablesUsed(mem, at, use);
    assert forall f | f in use && use[f] == TableAt(p) :: f == t;
  }

  // ---------- a whole tree ----------

  predicate OfTree(u: Use, r: nat) {
    (u.TableAt? && u.pos.root == r) || (u.LeafAt? && u.root == r)
  }

  /** The tree `r` and its memory are given back; everything else is as it was. */
  ghost predicate Without(mem: Memory, at: Tables, use: Uses, mem': Memory, at': Tables, use': Uses, r: nat) {
    && (forall f | f in use' :: f in use && use'[f] == use[f])
    && (forall f | f in use :: f in use' <==> !OfTree(use[f], r))
    && (forall p | p in at' :: p in at && p.root != r)
    && (forall p | p in at && p.root != r :: p in at' && at'[p] == at[p])
    && (forall r': nat, v: nat | r' != r && v < MAXVPN :: Flat(mem', at', r', v) == Flat(mem, at, r', v))
    && KeepsData(mem, mem', use')
  }

  lemma AllBelow(mem: Memory, at: Tables, use: Uses, q: Pos)
    requires TreeOk(mem, at, use) && q in at
    ensures Below(Pos(q.root, 2, 0), q)
    decreases 2 - q.level
  {
    assert NodeOk(mem, at, use, q, at[q]);
    if q.level < 2 {
      AllBelow(mem, at, use, Parent(q));
      BelowUp(Pos(q.root, 2, 0), q);
    }
  }

  lemma BelowRoot(r: nat, q: Pos)
    ensures Below(Pos(r, 2, 0), q) ==> q.root == r
  {
    BelowUp(Pos(r, 2, 0), q);
  }

  /** A tree that maps no page has only empty tables at level 0. */
  lemma BareTree(mem: Memory, at: Tables, use: Uses, r: nat)
    requires TreeOk(mem, at, use) && forall v: nat | v < MAXVPN :: !Flat(mem, at, r, v).V()
    ensures Bare(mem, at, Pos(r, 2, 0))
  {
    forall q | q in at && q.level == 0 && Below(Pos(r, 2, 0), q) ensures NoEntries(mem, at[q]) {
      BelowRoot(r, q);
      assert NodeOk(mem, at, use, q, at[q]);
      forall i: nat | i < ENTRIES ensures !EntryAt(mem, at[q], i).V() {
        var v := q.prefix * ENTRIES + i;
        assert v / ENTRIES == q.prefix && v % ENTRIES == i && Node(r, v, 0) == q;
        assert !Flat(mem, at, r, v).V();
      }
    }
  }

  /** Without the tree `r`, what is left is in order. */
  lemma TreeGone(lo: nat, hi: nat, mem: Memory, free: seq<nat>, at: Tables, use: Uses, r: nat, mem': Memory,
                 free': seq<nat>, at': Tables, use': Uses)
    requires Ok(lo, hi, mem, free, at, use) && forall f | f in use :: !(use[f].LeafAt? && use[f].root == r)
    requires Removed(mem, at, use, mem', at', use', Pos(r, 2, 0)) && Partition(lo, hi, free', use')
    ensures Ok(lo, hi, mem', free', at', use')
    ensures forall f | f in use :: f in use' <==> !OfTree(use[f], r)
    ensures forall q | q in at && q.root == r :: q !in at'
    ensures forall r': nat, v: nat | r' != r :: Flat(mem', at', r', v) == Flat(mem, at, r', v)
  {
    hide Below, Partition, LeafOk, Flat;
    assert forall q | q in at && !Below(Pos(r, 2, 0), q) :: q.root != r by {
      forall q | q in at && q.root == r ensures Below(Pos(r, 2, 0), q) {
        AllBelow(mem, at, use, q);
      }
    }
    forall q ensures Below(Pos(r, 2, 0), q) ==> q.root == r {
      BelowRoot(r, q);
    }
    TreeLeft(mem, at, use, r, mem', at', use');
    forall f | f in use' && use'[f].LeafAt? ensures LeafOk(mem', at', f, use'[f].root, use'[f].v) {
      LeafLeft(mem, at, use, r, mem', at', use', f);
    }
  }

  lemma LeafLeft(mem: Memory, at: Tables, use: Uses, r: nat, mem': Memory, at': Tables, use': Uses, f: nat)
    requires LeavesOk(mem, at, use) && f in use' && f in use && use'[f] == use[f] && use[f].LeafAt? && use[f].root != r
    requires forall r': nat, v: nat | r' != r :: Flat(mem', at', r', v) == Flat(mem, at, r', v)
    requires forall g | g in use' && g in mem :: g in mem' && mem'[g] == mem[g]
    ensures LeafOk(mem', at', f, use'[f].root, use'[f].v)
  {
    hide Flat;
    assert LeafOk(mem, at, f, use[f].root, use[f].v);
  }

  lemma TreeLeft(mem: Memory, at: Tables, use: Uses, r: nat, mem': Memory, at': Tables, use': Uses)
    requires TreeOk(mem, at, use)
    requires forall q | q in at' :: q in at && at'[q] == at[q]
    requires forall q | q in at :: q in at' <==> q.root != r
    requires forall f | f in use' :: f in use && use'[f] == use[f]
    requires forall f | f in use :: f in use' <==> !(use[f].TableAt? && use[f].pos.root == r)
    requires forall f | f in use' && f in mem :: f in mem' && mem'[f] == mem[f]
    ensures TreeOk(mem', at', use')
    ensures forall r': nat, v: nat | r' != r :: Flat(mem', at', r', v) == Flat(mem, at, r', v)
  {
    TablesUsed(mem, at, use);
    forall q | q in at' ensures NodeOk(mem', at', use', q, at'[q]) {
      assert NodeOk(mem, at, use, q, at[q]);
      if q.level > 0 {
        forall i: nat | i < ENTRIES ensures EntryOk(at', q, i, mem'[at[q]].ptes[i]) {
          assert EntryOk(at, q, i, mem[at[q]].ptes[i]);
        }
      }
    }
    forall r': nat, v: nat | r' != r ensures Flat(mem', at', r', v) == Flat(mem, at, r', v) {
      var q := Node(r', v, 0);
      assert q in at ==> q in at' && at[q] in use';
    }
  }

  /** A new tree: one zeroed table. */
  lemma NewTree(lo: nat, hi: nat, mem: Memory, free: seq<nat>, at: Tables, use: Uses, f: nat, mem': Memory)
    requires Ok(lo, hi, mem, free, at, use) && free != [] && f == free[0] && mem' == mem[f := Table(ZEROES)]
    ensures var p := Pos(f, 2, 0);
            && Ok(lo, hi, mem', free[1..], at[p := f], use[f := TableAt(p)]) && p !in at
            && forall r: nat, v: nat :: Flat(mem', at[p := f], r, v) == Flat(mem, at, r, v)
  {
    hide Partition, LeavesOk, Flat;
    var p := Pos(f, 2, 0);
    TookFirst(lo, hi, free, use, TableAt(p));
    NewRoot(mem, at, use, f, mem');
    SameAll(mem, at, mem', at[p := f]);
    LeavesKept(mem, at, use, mem', at[p := f], use[f := TableAt(p)]);
  }

  lemma NewRoot(mem: Memory, at: Tables, use: Uses, f: nat, mem': Memory)
    requires TreeOk(mem, at, use) && f !in use && mem' == mem[f := Table(ZEROES)]
    ensures var p := Pos(f, 2, 0);
            && TreeOk(mem', at[p := f], use[f := TableAt(p)]) && p !in at
            && forall r, v :: Flat(mem', at[p := f], r, v) == Flat(mem, at, r, v)
  {
    var p := Pos(f, 2, 0);
    var at', use' := at[p := f], use[f := TableAt(p)];
    assert forall q | q in at :: NodeOk(mem, at, use, q, at[q]);
    assert forall i: nat | i < ENTRIES :: Child(p, i) !in at;
    forall q | q in at ensures NodeOk(mem', at', use', q, at[q]) {
      if q.level > 0 {
        forall i: nat | i < ENTRIES ensures EntryOk(at', q, i, mem'[at[q]].ptes[i]) {
          assert EntryOk(at, q, i, mem[at[q]].ptes[i]);
        }
      }
    }
  }
}
