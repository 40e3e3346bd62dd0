/** The storage allocator of user/umalloc.c.  Addresses and sizes are in units of a header (16 bytes).

    `free` is the set of blocks on the free list, `base` among them, `live` the set of blocks handed
    out, and `own` gives the block each unit of memory belongs to. */
module Umalloc {
  import opened Prelude

  const HEADER := 16

  /** `b` follows `a` on a circular list in address order. */
  ghost predicate Succ(free: set<nat>, base: nat, a: nat, b: nat) {
    && b in free
    && if a < b then forall c | c in free :: c <= a || c >= b
       else b == base && forall c | c in free :: c <= a
  }

  ghost predicate ListOk(base: nat, ptr: map<nat, nat>, free: set<nat>) {
    && base in free
    && (forall a {:trigger Linked(base, ptr, free, a)} | a in free :: Linked(base, ptr, free, a))
  }

  ghost predicate Linked(base: nat, ptr: map<nat, nat>, free: set<nat>, a: nat) {
    a >= base && a in ptr && Succ(free, base, a, ptr[a])
  }

  lemma ListAt(base: nat, ptr: map<nat, nat>, free: set<nat>, a: nat)
    requires ListOk(base, ptr, free) && a in free
    ensures base in free && a >= base && a in ptr && Succ(free, base, a, ptr[a])
    ensures forall c | c in free :: c >= base
  {
    assert Linked(base, ptr, free, a);
    forall c | c in free ensures c >= base {
      assert Linked(base, ptr, free, c);
    }
  }

  ghost predicate BlockOk(base: nat, size: map<nat, nat>, own: map<nat, nat>, brk: nat, a: nat) {
    && base < a && a in size && size[a] > 0 && a + size[a] <= brk
    && forall u: nat | a <= u < a + size[a] :: u in own && own[u] == a
  }

  predicate UnitOk(size: map<nat, nat>, blocks: set<nat>, a: nat, u: nat) {
    a in blocks && a in size && a <= u < a + size[a]
  }

  /** Every unit belongs to one block, free or live. */
  ghost predicate BlocksOk(base: nat, size: map<nat, nat>, blocks: set<nat>, own: map<nat, nat>, brk: nat) {
    && (forall a {:trigger BlockOk(base, size, own, brk, a)} | a in blocks :: BlockOk(base, size, own, brk, a))
    && (forall u | u in own :: UnitOk(size, blocks, own[u], u))
  }

  /** No two free blocks touch. */
  ghost predicate Coalesced(base: nat, size: map<nat, nat>, free: set<nat>) {
    forall a | a in free && a != base && a in size :: a + size[a] !in free
  }

  ghost predicate Inv(base: nat, ptr: map<nat, nat>, size: map<nat, nat>, free: set<nat>, live: set<nat>,
                      own: map<nat, nat>, brk: nat) {
    && ListOk(base, ptr, free) && base in size && size[base] == 0 && free !! live
    && BlocksOk(base, size, free - {base} + live, own, brk) && Coalesced(base, size, free)
  }

  // ---------- going round the list ----------

  /** `c` comes after `p`, no later than `f`. */
  predicate OnTheWay(p: nat, f: nat, c: nat) {
    if p <= f then p < c <= f else c > p || c <= f
  }

  /** The blocks after `p`, up to and including `f`. */
  ghost function Ahead(free: set<nat>, p: nat, f: nat): (s: set<nat>) {
    set c | c in free && OnTheWay(p, f, c)
  }

  lemma StepAhead(base: nat, ptr: map<nat, nat>, free: set<nat>, p: nat, f: nat)
    requires ListOk(base, ptr, free) && p in free && f in free && p != f
    ensures p in ptr && ptr[p] in Ahead(free, p, f) && Ahead(free, ptr[p], f) == Ahead(free, p, f) - {ptr[p]}
  {
    hide OnTheWay, ListOk;
    ListAt(base, ptr, free, p);
    var q := ptr[p];
    assert OnTheWay(p, f, q) by { NextOnTheWay(free, base, p, f, q, q); }
    forall c | c in free ensures OnTheWay(q, f, c) <==> OnTheWay(p, f, c) && c != q {
      NextOnTheWay(free, base, p, f, q, c);
    }
  }

  lemma NextOnTheWay(free: set<nat>, base: nat, p: nat, f: nat, q: nat, c: nat)
    requires p in free && f in free && p != f && Succ(free, base, p, q) && c in free
    requires base <= p && base <= f && base <= c
    ensures OnTheWay(p, f, q) && (OnTheWay(q, f, c) <==> OnTheWay(p, f, c) && c != q)
  {
  }

  lemma FullCircle(base: nat, ptr: map<nat, nat>, free: set<nat>, f: nat)
    requires ListOk(base, ptr, free) && f in free
    ensures f in ptr && Ahead(free, ptr[f], f) + {ptr[f]} == free
  {
    hide OnTheWay, ListOk;
    ListAt(base, ptr, free, f);
    var q := ptr[f];
    forall c | c in free ensures c == q || OnTheWay(q, f, c) {
      AllOnTheWay(free, base, f, q, c);
    }
  }

  lemma AllOnTheWay(free: set<nat>, base: nat, f: nat, q: nat, c: nat)
    requires f in free && Succ(free, base, f, q) && c in free && base <= c
    ensures c == q || OnTheWay(q, f, c)
  {
  }

  // ---------- free ----------

  /** `p` is the last block of the list before address `bp`. */
  ghost predicate Before(free: set<nat>, bp: nat, p: nat) {
    p in free && p < bp && forall c | c in free :: c <= p || c > bp
  }

  /** The test free makes at each block holds exactly at the one before `bp`. */
  lemma FoundBefore(base: nat, ptr: map<nat, nat>, free: set<nat>, bp: nat, p: nat)
    requires ListOk(base, ptr, free) && p in free && bp !in free && base < bp
    ensures p in ptr
    ensures var q := ptr[p];
            Before(free, bp, p) <==> (bp > p && bp < q) || (p >= q && (bp > p || bp < q))
  {
    hide ListOk;
    ListAt(base, ptr, free, p);
  }

  ghost function LastBefore(free: set<nat>, bp: nat, base: nat): (p: nat)
    requires base in free && base < bp && bp !in free
    ensures Before(free, bp, p)
    decreases free
  {
    if c :| c in free && c < bp && c != base then
      var q := LastBefore(free - {c}, bp, base);
      assert q in free - {c} && forall d | d in free :: d == c || d in free - {c};
      if c > q then c else q
    else base
  }

  lemma SameList(base: nat, ptr: map<nat, nat>, free: set<nat>, ptr': map<nat, nat>)
    requires ListOk(base, ptr, free) && forall a | a in free :: a in ptr' && a in ptr && ptr'[a] == ptr[a]
    ensures ListOk(base, ptr', free)
  {
    hide Succ;
    forall a | a in free ensures Linked(base, ptr', free, a) {
      assert Linked(base, ptr, free, a);
    }
  }

  lemma Insert(base: nat, ptr: map<nat, nat>, free: set<nat>, bp: nat, p: nat)
    requires ListOk(base, ptr, free) && bp !in free && base < bp && Before(free, bp, p)
    ensures p in ptr && ListOk(base, ptr[bp := ptr[p]][p := bp], free + {bp})
  {
    hide ListOk, Succ;
    ListAt(base, ptr, free, p);
    var ptr', free' := ptr[bp := ptr[p]][p := bp], free + {bp};
    forall a | a in free' ensures Linked(base, ptr', free', a) {
      if a != bp {
        ListAt(base, ptr, free, a);
        InsertSucc(free, base, bp, p, a, ptr[a]);
      } else {
        InsertSucc(free, base, bp, p, p, ptr[p]);
      }
    }
    MakeList(base, ptr', free');
  }

  lemma InsertSucc(free: set<nat>, base: nat, bp: nat, p: nat, a: nat, b: nat)
    requires Before(free, bp, p) && bp !in free && base < bp && a in free && Succ(free, base, a, b) && base <= a
             && base in free
    ensures a == p ==> Succ(free + {bp}, base, p, bp) && Succ(free + {bp}, base, bp, b)
    ensures a != p ==> Succ(free + {bp}, base, a, b)
  {
    var all := free + {bp};
    assert forall c :: c in all <==> c in free || c == bp;
  }

  lemma MakeList(base: nat, ptr: map<nat, nat>, free: set<nat>)
    requires base in free && forall a | a in free :: Linked(base, ptr, free, a)
    ensures ListOk(base, ptr, free)
  {
  }

  lemma Remove(base: nat, ptr: map<nat, nat>, free: set<nat>, p: nat, q: nat)
    requires ListOk(base, ptr, free) && p in free && p in ptr && ptr[p] == q && q != base && q != p
    ensures q in free && q in ptr && ListOk(base, ptr[p := ptr[q]], free - {q})
  {
    hide ListOk;
    ListAt(base, ptr, free, p);
    ListAt(base, ptr, free, q);
    var ptr', free' := ptr[p := ptr[q]], free - {q};
    forall a | a in free' ensures Linked(base, ptr', free', a) {
      if a != p {
        ListAt(base, ptr, free, a);
      }
    }
    MakeList(base, ptr', free');
  }

  /** Units of block `b` belong to block `a` from now on. */
  ghost function Given(own: map<nat, nat>, b: nat, a: nat): (own': map<nat, nat>)
    ensures own'.Keys == own.Keys
  {
    map u | u in own :: if own[u] == b then a else own[u]
  }

  /** Two blocks that touch become one. */
  lemma MergeBlocks(base: nat, size: map<nat, nat>, blocks: set<nat>, own: map<nat, nat>, brk: nat, a: nat, b: nat)
    requires BlocksOk(base, size, blocks, own, brk) && a in blocks && b in blocks && a in size && b in size
             && a + size[a] == b
    ensures BlocksOk(base, size[a := size[a] + size[b]], blocks - {b}, Given(own, b, a), brk)
  {
    assert BlockOk(base, size, own, brk, a) && BlockOk(base, size, own, brk, b);
    var size', own' := size[a := size[a] + size[b]], Given(own, b, a);
    forall c | c in blocks - {b} ensures BlockOk(base, size', own', brk, c) {
      assert BlockOk(base, size, own, brk, c);
      MergeBlock(base, size, own, own', brk, a, b, c);
    }
    forall u | u in own' ensures UnitOk(size', blocks - {b}, own'[u], u) {
      assert UnitOk(size, blocks, own[u], u);
    }
  }

  lemma MergeBlock(base: nat, size: map<nat, nat>, own: map<nat, nat>, own': map<nat, nat>, brk: nat, a: nat, b: nat,
                   c: nat)
    requires BlockOk(base, size, own, brk, a) && BlockOk(base, size, own, brk, b) && a + size[a] == b
    requires BlockOk(base, size, own, brk, c) && c != b && own' == Given(own, b, a)
    ensures BlockOk(base, size[a := size[a] + size[b]], own', brk, c)
  {
  }

  /** Blocks do not overlap. */
  lemma Apart(base: nat, size: map<nat, nat>, blocks: set<nat>, own: map<nat, nat>, brk: nat, a: nat, b: nat)
    requires BlocksOk(base, size, blocks, own, brk) && a in blocks && b in blocks && a < b
    ensures a in size && a + size[a] <= b
  {
    assert BlockOk(base, size, own, brk, a) && BlockOk(base, size, own, brk, b);
    assert b in own && own[b] == b;
  }

  /** What free leaves: the new list, the blocks, their sizes and owners. */
  ghost function FreedPtr(ptr: map<nat, nat>, p: nat, bp: nat, next: nat, upper: bool, lower: bool): (r: map<nat, nat>)
    requires p in ptr && next in ptr
  {
    var ptr1 := ptr[bp := if upper then ptr[next] else next];
    ptr1[p := if lower then ptr1[bp] else bp]
  }

  ghost function FreedSize(size: map<nat, nat>, p: nat, bp: nat, next: nat, upper: bool,
                           lower: bool): (r: map<nat, nat>)
    requires p in size && bp in size && next in size
  {
    var size1 := if upper then size[bp := size[bp] + size[next]] else size;
    if lower then size1[p := size1[p] + size1[bp]] else size1
  }

  ghost function FreedList(free: set<nat>, bp: nat, next: nat, upper: bool, lower: bool): (r: set<nat>) {
    (if upper then free - {next} else free) + (if lower then {} else {bp})
  }

  ghost function FreedOwn(own: map<nat, nat>, p: nat, bp: nat, next: nat, upper: bool, lower: bool): (r: map<nat, nat>)
    ensures r.Keys == own.Keys
  {
    var own1 := if upper then Given(own, next, bp) else own;
    if lower then Given(own1, bp, p) else own1
  }

  lemma FreeListOk(base: nat, ptr: map<nat, nat>, free: set<nat>, p: nat, bp: nat, next: nat, upper: bool, lower: bool)
    requires ListOk(base, ptr, free) && bp !in free && base < bp && Before(free, bp, p) && p in ptr && next == ptr[p]
    requires upper ==> next > bp
    ensures next in ptr
    ensures ListOk(base, FreedPtr(ptr, p, bp, next, upper, lower), FreedList(free, bp, next, upper, lower))
  {
    hide ListOk;
    ListAt(base, ptr, free, p);
    ListAt(base, ptr, free, next);
    var ptr', free' := FreedPtr(ptr, p, bp, next, upper, lower), FreedList(free, bp, next, upper, lower);
    if lower {
      if upper {
        Remove(base, ptr, free, p, next);
        SameOn(base, ptr[p := ptr[next]], free - {next}, ptr');
      } else {
        SameOn(base, ptr, free, ptr');
      }
      assert free' == if upper then free - {next} else free;
    } else {
      Insert(base, ptr, free, bp, p);
      if upper {
        Remove(base, ptr[bp := next][p := bp], free + {bp}, bp, next);
        assert ptr' == ptr[bp := next][p := bp][bp := ptr[next]];
        assert free' == free + {bp} - {next};
      }
    }
  }

  lemma SameOn(base: nat, ptr: map<nat, nat>, free: set<nat>, ptr': map<nat, nat>)
    requires ListOk(base, ptr, free) && forall a | a in free && a in ptr :: a in ptr' && ptr'[a] == ptr[a]
    ensures ListOk(base, ptr', free)
  {
    hide Succ;
    forall a | a in free ensures a in ptr {
      assert Linked(base, ptr, free, a);
    }
    SameList(base, ptr, free, ptr');
  }

  lemma FreeBlocksOk(base: nat, size: map<nat, nat>, free: set<nat>, live: set<nat>, own: map<nat, nat>, brk: nat,
                     p: nat, bp: nat, next: nat, upper: bool, lower: bool)
    requires BlocksOk(base, size, free - {base} + live, own, brk) && free !! live && bp in live && base !in live
    requires p in free && next in free && p in size && bp in size && next in size && p < bp
    requires upper ==> next != base && bp + size[bp] == next
    requires lower ==> p != base && p + size[p] == bp
    ensures BlocksOk(base, FreedSize(size, p, bp, next, upper, lower),
                     FreedList(free, bp, next, upper, lower) - {base} + (live - {bp}),
                     FreedOwn(own, p, bp, next, upper, lower), brk)
  {
    hide BlocksOk, Given;
    var blocks := free - {base} + live;
    var blocks1 := if upper then blocks - {next} else blocks;
    var size1 := if upper then size[bp := size[bp] + size[next]] else size;
    var own1 := if upper then Given(own, next, bp) else own;
    if upper {
      MergeBlocks(base, size, blocks, own, brk, bp, next);
    }
    if lower {
      MergeBlocks(base, size1, blocks1, own1, brk, p, bp);
    }
    assert FreedList(free, bp, next, upper, lower) - {base} + (live - {bp})
           == if lower then blocks1 - {bp} else blocks1;
  }

  lemma FreeCoalesced(base: nat, size: map<nat, nat>, free: set<nat>, live: set<nat>, own: map<nat, nat>, brk: nat,
                      p: nat, bp: nat, next: nat, upper: bool, lower: bool)
    requires BlocksOk(base, size, free - {base} + live, own, brk) && free !! live && bp in live && base in free
    requires Coalesced(base, size, free) && Before(free, bp, p) && Succ(free, base, p, next) && base < bp
    requires p in size && bp in size && next in size
    requires upper <==> bp + size[bp] == next
    requires lower <==> p != base && p + size[p] == bp
    ensures Coalesced(base, FreedSize(size, p, bp, next, upper, lower), FreedList(free, bp, next, upper, lower))
  {
    hide BlocksOk, Succ, Before;
    var blocks := free - {base} + live;
    var size', free' := FreedSize(size, p, bp, next, upper, lower), FreedList(free, bp, next, upper, lower);
    forall a | a in free' && a != base && a in size' ensures a + size'[a] !in free' {
      if a == bp || (lower && a == p) {
        AfterHead(base, size, free, live, own, brk, p, bp, next, upper);
      } else {
        assert a in free && size'[a] == size[a];
        if a + size[a] == bp {
          AtMost(free, bp, p, a);
          BlockAt(base, size, blocks, own, brk, a);
          if a < p {
            Apart(base, size, blocks, own, brk, a, p);
          }
        }
      }
    }
  }

  lemma AtMost(free: set<nat>, bp: nat, p: nat, a: nat)
    requires Before(free, bp, p) && a in free && a <= bp
    ensures a <= p < bp && p in free
  {
  }

  /** No free block starts where the freed one ends, after merging with the next. */
  lemma AfterHead(base: nat, size: map<nat, nat>, free: set<nat>, live: set<nat>, own: map<nat, nat>, brk: nat, p: nat,
                  bp: nat, next: nat, upper: bool)
    requires BlocksOk(base, size, free - {base} + live, own, brk) && free !! live && bp in live && base in free
    requires Coalesced(base, size, free) && Before(free, bp, p) && Succ(free, base, p, next) && base < bp
    requires bp in size && next in size && (upper <==> bp + size[bp] == next)
    ensures var end := bp + size[bp] + if upper then size[next] else 0; end !in free && end != bp
  {
    hide BlocksOk;
    var blocks := free - {base} + live;
    BlockAt(base, size, blocks, own, brk, bp);
    if upper {
      assert next != base && next in blocks;
      BlockAt(base, size, blocks, own, brk, next);
    } else if bp + size[bp] in free {
      var c := bp + size[bp];
      assert c > bp && c >= next > bp;
      Apart(base, size, blocks, own, brk, bp, next);
      assert false;
    }
  }

  lemma BlockAt(base: nat, size: map<nat, nat>, blocks: set<nat>, own: map<nat, nat>, brk: nat, a: nat)
    requires BlocksOk(base, size, blocks, own, brk) && a in blocks
    ensures base < a && a in size && size[a] > 0 && a + size[a] <= brk
  {
    assert BlockOk(base, size, own, brk, a);
  }

  lemma FreeOk(base: nat, ptr: map<nat, nat>, size: map<nat, nat>, free: set<nat>, live: set<nat>, own: map<nat, nat>,
               brk: nat, p: nat, bp: nat, next: nat, upper: bool, lower: bool)
    requires Inv(base, ptr, size, free, live, own, brk) && bp in live && Before(free, bp, p)
    requires p in ptr && next == ptr[p] && p in size && bp in size && next in size && next in ptr
    requires (upper <==> bp + size[bp] == next) && (lower <==> p + size[p] == bp)
    ensures Inv(base, FreedPtr(ptr, p, bp, next, upper, lower), FreedSize(size, p, bp, next, upper, lower),
                FreedList(free, bp, next, upper, lower), live - {bp}, FreedOwn(own, p, bp, next, upper, lower), brk)
  {
    hide ListOk, BlocksOk, Coalesced, Succ, FreedOwn;
    ListAt(base, ptr, free, p);
    BlockAt(base, size, free - {base} + live, own, brk, bp);
    NextIsFree(free, base, p, next);
    FreeListOk(base, ptr, free, p, bp, next, upper, lower);
    FreeBlocksOk(base, size, free, live, own, brk, p, bp, next, upper, lower);
    FreeCoalesced(base, size, free, live, own, brk, p, bp, next, upper, lower);
  }

  /** The other live blocks keep their sizes, and a free block is as large as the one freed. */
  lemma FreedKept(size: map<nat, nat>, free: set<nat>, live: set<nat>, p: nat, bp: nat, next: nat, upper: bool,
                  lower: bool)
    requires p in size && bp in size && next in size && p in free && p !in live && p < bp && (upper ==> next > bp)
    ensures var size', free' := FreedSize(size, p, bp, next, upper, lower), FreedList(free, bp, next, upper, lower);
            && (forall a | a in live - {bp} && a in size :: a in size' && size'[a] == size[a])
            && p in free' && exists c :: c in free' && c in size' && size'[c] >= size[bp]
  {
    var size', free' := FreedSize(size, p, bp, next, upper, lower), FreedList(free, bp, next, upper, lower);
    var head := if lower then p else bp;
    assert head in free' && size'[head] >= size[bp];
  }

  lemma NextIsFree(free: set<nat>, base: nat, p: nat, next: nat)
    requires Succ(free, base, p, next)
    ensures next in free
  {
  }

  // ---------- malloc ----------

  /** The whole block `q` is taken off the list. */
  lemma TakeWhole(base: nat, ptr: map<nat, nat>, size: map<nat, nat>, free: set<nat>, live: set<nat>,
                  own: map<nat, nat>, brk: nat, p: nat, q: nat)
    requires Inv(base, ptr, size, free, live, own, brk) && p in free && p in ptr && ptr[p] == q && q != base
             && q in size
    ensures q in ptr && q in free && p != q && Inv(base, ptr[p := ptr[q]], size, free - {q}, live + {q}, own, brk)
  {
    hide ListOk, BlocksOk, Coalesced, Succ;
    ListAt(base, ptr, free, p);
    NotAlone(base, free, p, q);
    Remove(base, ptr, free, p, q);
    assert free - {q} - {base} + (live + {q}) == free - {base} + live;
    assert Coalesced(base, size, free - {q}) by {
      FewerCoalesced(base, size, free, q);
    }
  }

  lemma NotAlone(base: nat, free: set<nat>, p: nat, q: nat)
    requires Succ(free, base, p, q) && base in free && base <= p && q != base
    ensures p != q && q in free
  {
  }

  lemma FewerCoalesced(base: nat, size: map<nat, nat>, free: set<nat>, q: nat)
    requires Coalesced(base, size, free)
    ensures Coalesced(base, size, free - {q})
  {
  }

  /** The last `n` units of block `q` are split off. */
  lemma TakeTail(base: nat, ptr: map<nat, nat>, size: map<nat, nat>, free: set<nat>, live: set<nat>, own: map<nat, nat>,
                 brk: nat, q: nat, n: nat, a: nat)
    requires Inv(base, ptr, size, free, live, own, brk) && q in free && q in size && 0 < n < size[q]
             && a == q + (size[q] - n)
    ensures Inv(base, ptr, size[q := size[q] - n][a := n], free, live + {a}, SplitOff(own, q, a), brk)
    ensures a !in free && a !in live
  {
    hide ListOk, BlocksOk, SplitOff;
    var blocks := free - {base} + live;
    BlockAt(base, size, blocks, own, brk, q);
    SplitBlock(base, size, blocks, own, brk, q, n, a);
    assert free - {base} + (live + {a}) == blocks + {a};
    forall c | c in free && c != base && c in size ensures c + size[c] != a {
      BlockAt(base, size, blocks, own, brk, c);
      if c < q {
        Apart(base, size, blocks, own, brk, c, q);
      } else if q < c {
        Apart(base, size, blocks, own, brk, q, c);
      }
    }
  }

  lemma SplitBlock(base: nat, size: map<nat, nat>, blocks: set<nat>, own: map<nat, nat>, brk: nat, q: nat, n: nat,
                   a: nat)
    requires BlocksOk(base, size, blocks, own, brk) && q in blocks && q in size && 0 < n < size[q]
             && a == q + (size[q] - n)
    ensures a !in blocks && BlocksOk(base, size[q := size[q] - n][a := n], blocks + {a}, SplitOff(own, q, a), brk)
  {
    var size', own' := size[q := size[q] - n][a := n], SplitOff(own, q, a);
    assert BlockOk(base, size, own, brk, q);
    InsideBlock(base, size, blocks, own, brk, q, a);
    forall c | c in blocks + {a} ensures BlockOk(base, size', own', brk, c) {
      if c != a {
        assert BlockOk(base, size, own, brk, c);
        SplitOther(base, size, own, brk, q, n, a, c);
      }
    }
    forall u | u in own' ensures UnitOk(size', blocks + {a}, own'[u], u) {
      assert UnitOk(size, blocks, own[u], u);
    }
  }

  /** No block starts inside another. */
  lemma InsideBlock(base: nat, size: map<nat, nat>, blocks: set<nat>, own: map<nat, nat>, brk: nat, q: nat, a: nat)
    requires BlocksOk(base, size, blocks, own, brk) && q in blocks && q in size && q < a < q + size[q]
    ensures a !in blocks
  {
    assert BlockOk(base, size, own, brk, q) && own[a] == q;
    assert a in blocks ==> BlockOk(base, size, own, brk, a);
  }

  lemma SplitOther(base: nat, size: map<nat, nat>, own: map<nat, nat>, brk: nat, q: nat, n: nat, a: nat, c: nat)
    requires BlockOk(base, size, own, brk, q) && BlockOk(base, size, own, brk, c) && 0 < n < size[q]
             && a == q + (size[q] - n)
    requires c != a
    ensures BlockOk(base, size[q := size[q] - n][a := n], SplitOff(own, q, a), brk, c)
  {
  }

  ghost function SplitOff(own: map<nat, nat>, q: nat, a: nat): (own': map<nat, nat>)
    ensures own'.Keys == own.Keys
  {
    map u | u in own :: if own[u] == q && u >= a then a else own[u]
  }

  predicate Within(a: nat, n: nat, u: nat) {
    a <= u < a + n
  }

  /** The units of a block of `n` units at `a`. */
  ghost function Units(a: nat, n: nat): (own: map<nat, nat>)
    ensures forall u: nat :: u in own <==> Within(a, n, u)
    ensures forall u | u in own :: own[u] == a
  {
    map u: nat | a <= u < a + n && Within(a, n, u) :: a
  }

  /** A block of `n` units from sbrk, not on the list yet. */
  lemma AddCore(base: nat, ptr: map<nat, nat>, size: map<nat, nat>, free: set<nat>, live: set<nat>, own: map<nat, nat>,
                brk: nat, a: nat, n: nat)
    requires Inv(base, ptr, size, free, live, own, brk) && base < brk <= a && n > 0
    ensures Inv(base, ptr, size[a := n], free, live + {a}, own + Units(a, n), a + n)
    ensures a !in free && a !in live && forall u | u in own :: u < a
  {
    hide ListOk;
    var blocks := free - {base} + live;
    var size', own' := size[a := n], own + Units(a, n);
    forall c | c in blocks ensures c < a && BlockOk(base, size', own', a + n, c) {
      assert BlockOk(base, size, own, brk, c);
    }
    assert free - {base} + (live + {a}) == blocks + {a};
    forall u | u in own' ensures UnitOk(size', blocks + {a}, own'[u], u) {
      assert u in own ==> UnitOk(size, blocks, own[u], u);
    }
    forall u | u in own ensures u < a {
      assert UnitOk(size, blocks, own[u], u) && BlockOk(base, size, own, brk, own[u]);
    }
  }

  /** The units malloc looks for: a header and room for `nbytes`. */
  function NUnits(nbytes: nat): (n: nat)
    ensures n > 0 && (n - 1) * HEADER >= nbytes && (n > 1 ==> (n - 2) * HEADER < nbytes)
  {
    (nbytes + HEADER - 1) / HEADER + 1
  }

  const MINCORE := 4096

  function Core(n: nat): (nu: nat)
    ensures nu >= n && nu >= 4096 && (nu == n || nu == 4096)
  {
    if n < MINCORE then MINCORE else n
  }

  /** The conversion of an unsigned count of bytes to the int that sbrk takes. */
  function AsInt(x: nat): (i: int) {
    var low := x % 0x1_0000_0000;
    if low >= 0x8000_0000 then low - 0x1_0000_0000 else low
  }

  /** morecore asks sbrk for what it needs exactly for requests up to this size; from there on the
      count turns negative and sbrk would take memory away. */
  lemma SbrkRequest(nbytes: nat)
    requires nbytes < 0x1_0000_0000
    ensures AsInt(Core(NUnits(nbytes)) * HEADER) == Core(NUnits(nbytes)) * HEADER <==> nbytes <= 0x7FFF_FFE0
    ensures nbytes > 0x7FFF_FFE0 ==> AsInt(Core(NUnits(nbytes)) * HEADER) < 0 || nbytes > 0xFFFF_FFE0
  {
    var n := NUnits(nbytes);
    assert nbytes <= 0x7FFF_FFE0 <==> n <= 0x7FF_FFFF;
  }

  class Allocator {
    /** The address of the list's first block, of size 0. */
    const base: nat
    /** The headers of blocks. */
    var ptr: map<nat, nat>
    var size: map<nat, nat>
    /** The block the next search starts from; 0 before the first call. */
    var freep: nat
    /** Memory from here on is not allocated yet. */
    ghost var brk: nat
    ghost var free: set<nat>
    ghost var live: set<nat>
    ghost var own: map<nat, nat>

    ghost predicate Valid()
      reads this
    {
      && 0 < base < brk
      && if freep == 0 then live == {} && own == map[]
         else freep in free && Inv(base, ptr, size, free, live, own, brk)
    }

    constructor (base: nat, brk: nat)
      requires 0 < base < brk
      ensures Valid() && this.base == base && this.brk == brk && live == {} && own == map[]
    {
      this.base, this.brk := base, brk;
      ptr, size, freep := map[], map[], 0;
      free, live, own := {}, {}, map[];
    }

    /** The place of `bp` on the list: goes round from freep until the addresses enclose it. */
    method FindPlace(bp: nat) returns (p: nat)
      requires Valid() && bp in live
      ensures Before(free, bp, p) && p in ptr && ptr[p] in free && ptr[p] in ptr && p >= base
    {
      hide Inv, ListOk, Succ, Before, Ahead;
      Sizes(base, ptr, size, free, live, own, brk);
      ghost var target := LastBefore(free, bp, base);
      p := freep;
      FreeTest(base, ptr, free, bp, p, target);
      while !(bp > p && bp < ptr[p])
        invariant p in free && p in ptr && ptr[p] in free && (p == target <==> FreeStops(ptr, bp, p))
        decreases Ahead(free, p, target)
      {
        if p >= ptr[p] && (bp > p || bp < ptr[p]) {
          break;
        }
        StepAheadLess(base, ptr, free, p, target);
        FreeTest(base, ptr, free, bp, ptr[p], target);
        p := ptr[p];
      }
      FreeTest(base, ptr, free, bp, p, target);
    }

    /** Puts the block at `bp` on the list and merges it with the blocks it touches. */
    method Free(bp: nat)
      requires Valid() && bp in live && bp in size
      modifies this
      ensures Valid() && freep != 0 && live == old(live) - {bp} && own.Keys == old(own).Keys && brk == old(brk)
      ensures forall a | a in live && a in old(size) :: a in size && size[a] == old(size)[a]
      ensures exists c :: c in free && c in size && size[c] >= old(size)[bp]
    {
      hide Inv, Before, FreedOwn, FreedPtr, FreedSize, FreedList;
      var p: nat := FindPlace(bp);
      BeforeFacts(free, bp, p);
      var next: nat := ptr[p];
      SizeAt(base, ptr, size, free, live, own, brk, p, bp);
      SizeAt(base, ptr, size, free, live, own, brk, next, bp);
      ghost var upper, lower := bp + size[bp] == next, p + size[p] == bp;
      FreeOk(base, ptr, size, free, live, own, brk, p, bp, next, upper, lower);
      FreedKept(size, free, live, p, bp, next, upper, lower);
      ptr, size := Merge(ptr, size, p, bp, next);
      freep := p;
      free, live, own := FreedList(free, bp, next, upper, lower), live - {bp}, FreedOwn(own, p, bp, next, upper, lower);
    }

    /** The headers after the block `bp` was linked between `p` and `next` and merged with what it touches. */
    static method Merge(ptr: map<nat, nat>, size: map<nat, nat>, p: nat, bp: nat, next: nat)
      returns (ptr': map<nat, nat>, size': map<nat, nat>)
      requires p in ptr && next in ptr && p in size && bp in size && next in size && p < bp
      ensures ptr' == FreedPtr(ptr, p, bp, next, bp + size[bp] == next, p + size[p] == bp)
      ensures size' == FreedSize(size, p, bp, next, bp + size[bp] == next, p + size[p] == bp)
    {
      ptr', size' := ptr, size;
      if bp + size'[bp] == next {
        size' := size'[bp := size'[bp] + size'[next]];
        ptr' := ptr'[bp := ptr'[next]];
      } else {
        ptr' := ptr'[bp := next];
      }
      if p + size'[p] == bp {
        size' := size'[p := size'[p] + size'[bp]];
        ptr' := ptr'[p := ptr'[bp]];
      } else {
        ptr' := ptr'[p := bp];
      }
    }

    /** Puts at least `nu` units of new memory on the list; `core` is what sbrk answers. */
    method Morecore(nu: nat, core: Option<nat>) returns (p: Option<nat>)
      requires Valid() && freep != 0 && nu > 0 && (core.Some? ==> core.value >= brk)
      modifies this
      ensures Valid() && freep != 0 && live == old(live)
      ensures forall a | a in live && a in old(size) :: a in size && size[a] == old(size)[a]
      ensures core.None? ==> p.None? && own == old(own) && free == old(free) && size == old(size) && brk == old(brk)
                             && ptr == old(ptr) && freep == old(freep)
      ensures core.Some? ==> && p == Some(freep) && (exists c :: c in free && c in size && size[c] >= nu)
                             && own.Keys == old(own).Keys + Units(core.value, Core(nu)).Keys
                             && old(own).Keys !! Units(core.value, Core(nu)).Keys
    {
      hide Inv;
      if core.None? {
        return None;
      }
      var hp := core.value;
      AddCore(base, ptr, size, free, live, own, brk, hp, Core(nu));
      size := size[hp := Core(nu)];
      live, own, brk := live + {hp}, own + Units(hp, Core(nu)), hp + Core(nu);
      assert hp !in old(live);
      Free(hp);
      assert live == old(live);
      return Some(freep);
    }

    /** A block with room for `nbytes`, from the list or from sbrk, which is asked once at most;
        `core` is what it answers.  The address returned is that of the block's second unit.  Memory
        from sbrk is as much as was meant only if SbrkRequest says so. */
    method Malloc(nbytes: nat, core: Option<nat>) returns (r: Option<nat>)
      requires Valid() && nbytes < WRAP && (core.Some? ==> core.value >= brk && nbytes <= 0x7FFF_FFE0)
      modifies this
      ensures Valid()
      ensures forall a | a in old(live) && a in old(size) :: a in live && a in size && size[a] == old(size)[a]
      ensures r.Some? ==> && r.value > 0 && r.value - 1 !in old(live) && live == old(live) + {r.value - 1}
                          && r.value - 1 in size && size[r.value - 1] == NUnits(nbytes)
                          && (own.Keys == old(own).Keys || (core.Some? && own.Keys
                              == old(own).Keys + Units(core.value, Core(NUnits(nbytes))).Keys))
      ensures r.None? ==> && core.None? && live == old(live) && own == old(own)
                          && forall c | c in free && c in size :: size[c] < NUnits(nbytes)
    {
      hide Inv, Ahead;
      var n := NUnits(nbytes);
      if freep == 0 {
        ptr, size, freep := map[base := base], map[base := 0], base;
        free := {base};
        FirstList(base, brk);
      }
      Circle(base, ptr, size, free, live, own, brk, freep);
      var prevp: nat, p: nat := freep, ptr[freep];
      ghost var grown := false;
      while true
        invariant Valid() && freep != 0 && live == old(live)
        invariant prevp in free && prevp in ptr && ptr[prevp] == p && p in free && p in size
        invariant forall a | a in old(live) && a in old(size) :: a in size && size[a] == old(size)[a]
        invariant !grown ==> own == old(own) && brk == old(brk)
        invariant !grown ==> forall c | c in free && c in size :: size[c] < n || c == p || c in Ahead(free, p, freep)
        invariant grown ==> exists c :: c in free && c in size && size[c] >= n && (c == p || c in Ahead(free, p, freep))
        invariant grown ==> core.Some? && own.Keys == old(own).Keys + Units(core.value, Core(n)).Keys
        decreases !grown, Ahead(free, p, freep)
      {
        if size[p] >= n {
          var a := Take(prevp, p, n);
          return Some(a + 1);
        }
        if p == freep {
          NoneAhead(free, p);
          var more := Morecore(n, core);
          if more.None? {
            return None;
          }
          grown := true;
          p := more.value;
          Circle(base, ptr, size, free, live, own, brk, p);
        } else {
          Onward(base, ptr, size, free, live, own, brk, p, freep);
        }
        prevp, p := p, ptr[p];
      }
    }

    /** Hands out `n` units of block `p`, which follows `prevp`: all of it, or its tail. */
    method Take(prevp: nat, p: nat, n: nat) returns (a: nat)
      requires Valid() && freep != 0 && prevp in free && prevp in ptr && ptr[prevp] == p && p in free && p in size
      requires 0 < n <= size[p]
      modifies this
      ensures Valid() && freep == prevp && own.Keys == old(own).Keys
      ensures a !in old(live) && live == old(live) + {a} && a in size && size[a] == n
      ensures forall b | b in old(live) && b in old(size) :: b in size && size[b] == old(size)[b]
    {
      hide Inv, SplitOff;
      NotBase(base, ptr, size, free, live, own, brk, p);
      if size[p] == n {
        TakeWhole(base, ptr, size, free, live, own, brk, prevp, p);
        ptr := ptr[prevp := ptr[p]];
        free, live := free - {p}, live + {p};
        a := p;
      } else {
        a := p + (size[p] - n);
        TakeTail(base, ptr, size, free, live, own, brk, p, n, a);
        size := size[p := size[p] - n][a := n];
        live, own := live + {a}, SplitOff(own, p, a);
      }
      freep := prevp;
    }
  }

  lemma FirstList(base: nat, brk: nat)
    requires base < brk
    ensures Inv(base, map[base := base], map[base := 0], {base}, {}, map[], brk)
  {
    assert Linked(base, map[base := base], {base}, base);
  }

  lemma NotBase(base: nat, ptr: map<nat, nat>, size: map<nat, nat>, free: set<nat>, live: set<nat>, own: map<nat, nat>,
                brk: nat, p: nat)
    requires Inv(base, ptr, size, free, live, own, brk) && p in free && p in size
    ensures p !in live && base > 0 ==> (size[p] > 0 ==> p != base)
    ensures forall a | a in free :: a >= base
    ensures free !! live
  {
    hide BlocksOk, Coalesced, ListOk;
    ListAt(base, ptr, free, p);
  }

  /** Starting after `f`, the whole list is ahead. */
  lemma Circle(base: nat, ptr: map<nat, nat>, size: map<nat, nat>, free: set<nat>, live: set<nat>, own: map<nat, nat>,
               brk: nat, f: nat)
    requires Inv(base, ptr, size, free, live, own, brk) && f in free
    ensures f in ptr && ptr[f] in free && ptr[f] in size
    ensures forall c | c in free :: c == ptr[f] || c in Ahead(free, ptr[f], f)
  {
    hide BlocksOk, Coalesced, ListOk, Succ, Ahead;
    ListAt(base, ptr, free, f);
    NextIsFree(free, base, f, ptr[f]);
    FullCircle(base, ptr, free, f);
    InSize(base, ptr, size, free, live, own, brk, ptr[f]);
  }

  lemma InSize(base: nat, ptr: map<nat, nat>, size: map<nat, nat>, free: set<nat>, live: set<nat>, own: map<nat, nat>,
               brk: nat, a: nat)
    requires Inv(base, ptr, size, free, live, own, brk) && a in free
    ensures a in size
  {
    hide ListOk, BlocksOk, Coalesced;
    if a != base {
      BlockAt(base, size, free - {base} + live, own, brk, a);
    }
  }

  lemma Onward(base: nat, ptr: map<nat, nat>, size: map<nat, nat>, free: set<nat>, live: set<nat>, own: map<nat, nat>,
               brk: nat, p: nat, f: nat)
    requires Inv(base, ptr, size, free, live, own, brk) && p in free && f in free && p != f
    ensures p in ptr && ptr[p] in free && ptr[p] in size
    ensures Ahead(free, ptr[p], f) < Ahead(free, p, f)
    ensures forall c | c in Ahead(free, p, f) :: c == ptr[p] || c in Ahead(free, ptr[p], f)
  {
    hide BlocksOk, Coalesced, ListOk, Succ, Ahead;
    ListAt(base, ptr, free, p);
    NextIsFree(free, base, p, ptr[p]);
    StepAhead(base, ptr, free, p, f);
    InSize(base, ptr, size, free, live, own, brk, ptr[p]);
  }

  lemma NoneAhead(free: set<nat>, p: nat)
    ensures Ahead(free, p, p) == {}
  {
  }

  lemma SizeAt(base: nat, ptr: map<nat, nat>, size: map<nat, nat>, free: set<nat>, live: set<nat>, own: map<nat, nat>,
               brk: nat, a: nat, b: nat)
    requires Inv(base, ptr, size, free, live, own, brk) && a in free && b in live
    ensures a in size && a !in live && b in size && size[b] > 0 && b !in free && (a == base ==> size[a] == 0)
            && base <= a && base < b
  {
    hide ListOk, BlocksOk, Coalesced;
    ListAt(base, ptr, free, a);
    BlockAt(base, size, free - {base} + live, own, brk, b);
    if a != base {
      BlockAt(base, size, free - {base} + live, own, brk, a);
    }
  }

  lemma BeforeFacts(free: set<nat>, bp: nat, p: nat)
    requires Before(free, bp, p)
    ensures p in free && p < bp
  {
  }

  lemma StepAheadLess(base: nat, ptr: map<nat, nat>, free: set<nat>, p: nat, f: nat)
    requires ListOk(base, ptr, free) && p in free && f in free && p != f
    ensures p in ptr && Ahead(free, ptr[p], f) < Ahead(free, p, f)
  {
    hide ListOk, Ahead;
    StepAhead(base, ptr, free, p, f);
  }

  predicate FreeStops(ptr: map<nat, nat>, bp: nat, p: nat)
    requires p in ptr
  {
    (bp > p && bp < ptr[p]) || (p >= ptr[p] && (bp > p || bp < ptr[p]))
  }

  lemma FreeTest(base: nat, ptr: map<nat, nat>, free: set<nat>, bp: nat, p: nat, target: nat)
    requires ListOk(base, ptr, free) && p in free && bp !in free && base < bp && Before(free, bp, target)
    ensures p in ptr && (p == target <==> FreeStops(ptr, bp, p))
    ensures ptr[p] in free && ptr[p] in ptr && p >= base && target in free
  {
    hide ListOk;
    FoundBefore(base, ptr, free, bp, p);
    ListAt(base, ptr, free, p);
    ListAt(base, ptr, free, ptr[p]);
  }

  lemma Sizes(base: nat, ptr: map<nat, nat>, size: map<nat, nat>, free: set<nat>, live: set<nat>, own: map<nat, nat>,
              brk: nat)
    requires Inv(base, ptr, size, free, live, own, brk)
    ensures ListOk(base, ptr, free) && free !! live && base in free && base in size && size[base] == 0 && base !in live
    ensures forall a | a in free || a in live :: a in size
    ensures forall a | a in live || (a in free && a != base) :: base < a < brk && size[a] > 0
  {
    hide BlocksOk, ListOk, Coalesced, Succ;
    forall a | a in live || (a in free && a != base) ensures base < a < brk && a in size && size[a] > 0 {
      BlockAt(base, size, free - {base} + live, own, brk, a);
    }
    ListBase(base, ptr, free);
  }

  lemma ListBase(base: nat, ptr: map<nat, nat>, free: set<nat>)
    requires ListOk(base, ptr, free)
    ensures base in free
  {
  }

  /** The units obtained from sbrk are those of the free and the live blocks, each in one block. */
  lemma UnitsAccounted(base: nat, ptr: map<nat, nat>, size: map<nat, nat>, free: set<nat>, live: set<nat>,
                       own: map<nat, nat>, brk: nat)
    requires Inv(base, ptr, size, free, live, own, brk)
    ensures forall u: nat :: u in own <==> exists a :: UnitOk(size, free - {base} + live, a, u)
    ensures forall u: nat, a, b | UnitOk(size, free - {base} + live, a, u)
            && UnitOk(size, free - {base} + live, b, u) :: a == b
  {
    hide ListOk, Coalesced;
    var blocks := free - {base} + live;
    forall u: nat, a | UnitOk(size, blocks, a, u) ensures u in own && own[u] == a {
      assert BlockOk(base, size, own, brk, a);
    }
    forall u | u in own ensures exists a :: UnitOk(size, blocks, a, u) {
      assert UnitOk(size, blocks, own[u], u);
    }
  }
}
