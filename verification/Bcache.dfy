/** The buffer cache of kernel/bio.c: NBUF buffers on a circular doubly linked list, most recently
    released first.  Buffers are named by index; the list's head is HEAD. */
module Bcache {
  import opened Prelude

  const NBUF := 30
  const HEAD := 30

  datatype Buf = Buf(dev: nat, blockno: nat, valid: bool, refcnt: nat)

  // ---------- the list ----------

  ghost predicate Linked(next: seq<nat>, prev: seq<nat>, a: nat, b: nat) {
    a < |next| == |prev| && b < |prev| && next[a] == b && prev[b] == a
  }

  /** The pointers lead round the nodes of `ring`, forwards and backwards. */
  ghost predicate RingOk(next: seq<nat>, prev: seq<nat>, ring: seq<nat>) {
    && |ring| > 0 && Distinct(ring)
    && (forall i | 0 <= i < |ring| - 1 :: Linked(next, prev, ring[i], ring[i + 1]))
    && Linked(next, prev, ring[|ring| - 1], ring[0])
  }

  /** b->next->prev = b->prev and b->prev->next = b->next take node `k` out. */
  lemma Unlink(next: seq<nat>, prev: seq<nat>, ring: seq<nat>, k: nat, next': seq<nat>, prev': seq<nat>)
    requires RingOk(next, prev, ring) && 0 < k < |ring|
    requires var b := ring[k]; b < |next| == |prev| && next[b] < |prev| && prev[b] < |next|
                               && prev' == prev[next[b] := prev[b]] && next' == next[prev[b] := next[b]]
    ensures RingOk(next', prev', ring[..k] + ring[k + 1..])
  {
    var rest := ring[..k] + ring[k + 1..];
    var b := ring[k];
    assert Linked(next, prev, ring[k - 1], ring[k - 1 + 1]) && prev[b] == ring[k - 1];
    assert k < |ring| - 1 ==> Linked(next, prev, ring[k], ring[k + 1]) && next[b] == ring[k + 1];
    forall i | 0 <= i < |rest| - 1 ensures Linked(next', prev', rest[i], rest[i + 1]) {
      if i < k - 1 {
        assert Linked(next, prev, ring[i], ring[i + 1]);
      } else if i >= k {
        assert Linked(next, prev, ring[i + 1], ring[i + 1 + 1]);
      }
    }
  }

  /** The four assignments that put node `b` after the first node of the ring. */
  lemma LinkFront(next: seq<nat>, prev: seq<nat>, ring: seq<nat>, b: nat, next': seq<nat>, prev': seq<nat>)
    requires RingOk(next, prev, ring) && b !in ring && b < |next| == |prev| && ring[0] < |next|
             && next[ring[0]] < |prev|
    requires next' == next[b := next[ring[0]]][ring[0] := b]
    requires prev' == prev[b := ring[0]][next[ring[0]] := b]
    ensures RingOk(next', prev', [ring[0], b] + ring[1..])
  {
    var more := [ring[0], b] + ring[1..];
    assert |ring| > 1 ==> Linked(next, prev, ring[0], ring[0 + 1]);
    forall i | 0 <= i < |more| - 1 ensures Linked(next', prev', more[i], more[i + 1]) {
      if i >= 2 {
        assert Linked(next, prev, ring[i - 1], ring[i - 1 + 1]);
      }
    }
  }

  /** Every buffer is on the list, once. */
  ghost predicate AllBufs(order: seq<nat>) {
    && |order| == NBUF && Distinct(order) && (forall i | 0 <= i < NBUF :: order[i] < NBUF)
    && forall b: nat | b < NBUF :: b in order
  }

  /** Earlier on the list means released later. */
  ghost predicate ByRelease(order: seq<nat>, stamp: seq<nat>, clock: nat) {
    && |stamp| == NBUF && (forall i | 0 <= i < |order| :: order[i] < NBUF)
    && (forall i, j | 0 <= i < j < |order| :: stamp[order[i]] > stamp[order[j]])
    && (forall b | 0 <= b < NBUF :: stamp[b] < clock)
  }

  /** A block of a device other than 0 is in one buffer at most. */
  ghost predicate Unique(bufs: seq<Buf>) {
    forall a, b | 0 <= a < b < |bufs| && bufs[a].dev != 0 ::
      bufs[a].dev != bufs[b].dev || bufs[a].blockno != bufs[b].blockno
  }

  function ToFront(order: seq<nat>, k: nat): (r: seq<nat>)
    requires k < |order|
  {
    [order[k]] + order[..k] + order[k + 1..]
  }

  lemma FrontAt(order: seq<nat>, k: nat, i: nat)
    requires k < |order| && i < |order|
    ensures |ToFront(order, k)| == |order|
    ensures ToFront(order, k)[i] == if i == 0 then order[k] else if i <= k then order[i - 1] else order[i]
  {
  }

  /** Where a buffer is on the list. */
  lemma Place(order: seq<nat>, b: nat) returns (k: nat)
    requires AllBufs(order) && b < NBUF
    ensures k < NBUF && order[k] == b
  {
    assert b in order;
    k :| 0 <= k < |order| && order[k] == b;
  }

  lemma ToFrontOk(order: seq<nat>, k: nat, stamp: seq<nat>, clock: nat)
    requires AllBufs(order) && ByRelease(order, stamp, clock) && k < NBUF
    ensures AllBufs(ToFront(order, k)) && ByRelease(ToFront(order, k), stamp[order[k] := clock], clock + 1)
  {
    hide ToFront;
    var r, stamp' := ToFront(order, k), stamp[order[k] := clock];
    FrontAt(order, k, 0);
    forall i, j | 0 <= i < j < NBUF ensures r[i] != r[j] && r[i] < NBUF && r[j] < NBUF && stamp'[r[i]] > stamp'[r[j]] {
      FrontAt(order, k, i);
      FrontAt(order, k, j);
    }
    forall b: nat | b < NBUF ensures b in r {
      var i := Place(order, b);
      var j := if i == k then 0 else if i < k then i + 1 else i;
      FrontAt(order, k, j);
      assert r[j] == b;
    }
  }

  lemma UniqueRecycled(bufs: seq<Buf>, b: nat, buf: Buf)
    requires Unique(bufs) && b < |bufs|
             && forall x | 0 <= x < |bufs| :: bufs[x].dev != buf.dev || bufs[x].blockno != buf.blockno
    ensures Unique(bufs[b := buf])
  {
  }

  lemma UniqueCounted(bufs: seq<Buf>, b: nat, refcnt: nat)
    requires Unique(bufs) && b < |bufs|
    ensures Unique(bufs[b := bufs[b].(refcnt := refcnt)])
  {
  }

  /** Of the unused buffers, the last on the list was released first. */
  lemma Oldest(order: seq<nat>, stamp: seq<nat>, clock: nat, bufs: seq<Buf>, i: nat)
    requires AllBufs(order) && ByRelease(order, stamp, clock) && |bufs| == NBUF && i < NBUF
    requires forall j | i < j < NBUF :: bufs[order[j]].refcnt > 0
    ensures forall x | 0 <= x < NBUF && x != order[i] && bufs[x].refcnt == 0 :: stamp[x] > stamp[order[i]]
  {
    forall x: nat | x < NBUF && x != order[i] && bufs[x].refcnt == 0 ensures stamp[x] > stamp[order[i]] {
      var j := Place(order, x);
    }
  }

  /** What holds all along the list holds of all buffers. */
  lemma NotCached(order: seq<nat>, bufs: seq<Buf>, dev: nat, blockno: nat)
    requires AllBufs(order) && |bufs| == NBUF
    requires forall j | 0 <= j < NBUF :: bufs[order[j]].dev != dev || bufs[order[j]].blockno != blockno
    ensures forall x | 0 <= x < NBUF :: bufs[x].dev != dev || bufs[x].blockno != blockno
  {
    forall x: nat | x < NBUF ensures bufs[x].dev != dev || bufs[x].blockno != blockno {
      var j := Place(order, x);
    }
  }

  lemma AllInUse(order: seq<nat>, bufs: seq<Buf>)
    requires AllBufs(order) && |bufs| == NBUF && forall j | 0 <= j < NBUF :: bufs[order[j]].refcnt > 0
    ensures forall x | 0 <= x < NBUF :: bufs[x].refcnt > 0
  {
    forall x: nat | x < NBUF ensures bufs[x].refcnt > 0 {
      var j := Place(order, x);
    }
  }

  lemma StampSize(order: seq<nat>, stamp: seq<nat>, clock: nat)
    requires ByRelease(order, stamp, clock)
    ensures |stamp| == NBUF
  {
  }

  /** No other buffer has the block. */
  lemma OnlyOne(bufs: seq<Buf>, b: nat)
    requires Unique(bufs) && b < |bufs| && bufs[b].dev != 0
    ensures forall x | 0 <= x < |bufs| && bufs[x].dev == bufs[b].dev && bufs[x].blockno == bufs[b].blockno :: x == b
  {
  }

  lemma OnList(order: seq<nat>, i: nat)
    requires AllBufs(order) && i < NBUF
    ensures |order| == NBUF && order[i] < NBUF
  {
  }

  class Cache {
    var next: seq<nat>
    var prev: seq<nat>
    var bufs: seq<Buf>
    /** The buffers from the most to the least recently released, and when each was released. */
    ghost var order: seq<nat>
    ghost var stamp: seq<nat>
    ghost var clock: nat

    ghost predicate Valid()
      reads this
    {
      && |next| == |prev| == NBUF + 1 && |bufs| == NBUF && RingOk(next, prev, [HEAD] + order) && AllBufs(order)
      && ByRelease(order, stamp, clock) && Unique(bufs)
    }

    constructor Binit()
      ensures Valid() && forall b | 0 <= b < NBUF :: bufs[b] == Buf(0, 0, false, 0)
    {
      next, prev := seq(NBUF + 1, _ => HEAD), seq(NBUF + 1, _ => HEAD);
      bufs := seq(NBUF, _ => Buf(0, 0, false, 0));
      order, stamp, clock := [], seq(NBUF, i => i), NBUF;
      new;
      var b := 0;
      while b < NBUF
        invariant b <= NBUF && |next| == |prev| == NBUF + 1 && RingOk(next, prev, [HEAD] + order)
        invariant bufs == seq(NBUF, _ => Buf(0, 0, false, 0)) && stamp == seq(NBUF, i => i) && clock == NBUF
        invariant |order| == b && forall i | 0 <= i < b :: order[i] == b - 1 - i
      {
        ghost var ring, next0, prev0 := [HEAD] + order, next, prev;
        assert |order| > 0 ==> Linked(next, prev, ring[0], ring[0 + 1]);
        next := next[b := next[HEAD]];
        prev := prev[b := HEAD];
        prev := prev[next[HEAD] := b];
        next := next[HEAD := b];
        LinkFront(next0, prev0, ring, b, next, prev);
        assert [HEAD, b] + ring[1..] == [HEAD] + ([b] + order);
        order := [b] + order;
        b := b + 1;
      }
      forall x: nat | x < NBUF ensures x in order {
        assert order[NBUF - 1 - x] == x;
      }
    }

    /** The buffer of the block, or the least recently released one that is not in use. */
    method Bget(dev: nat, blockno: nat) returns (r: Option<nat>)
      requires Valid() && dev != 0
      modifies `bufs
      ensures Valid()
      ensures r.None? ==> bufs == old(bufs)
                          && forall b | 0 <= b < NBUF ::
                bufs[b].refcnt > 0 && (bufs[b].dev != dev || bufs[b].blockno != blockno)
      ensures r.Some? ==> && r.value < NBUF && bufs == old(bufs)[r.value := bufs[r.value]]
                          && bufs[r.value].dev == dev && bufs[r.value].blockno == blockno
      ensures forall b | 0 <= b < NBUF && old(bufs)[b].dev == dev && old(bufs)[b].blockno == blockno ::
                r == Some(b) && bufs[b] == old(bufs)[b].(refcnt := Inc(old(bufs)[b].refcnt))
      ensures r.Some? && (forall b | 0 <= b < NBUF :: old(bufs)[b].dev != dev || old(bufs)[b].blockno != blockno)
              ==> && old(bufs)[r.value].refcnt == 0 && bufs[r.value] == Buf(dev, blockno, false, 1)
                  && forall b | 0 <= b < NBUF && b != r.value && old(bufs)[b].refcnt == 0 :: stamp[b] > stamp[r.value]
    {
      hide RingOk, AllBufs, ByRelease, Unique;
      OnList(order, 0);
      Enter(next, prev, order);
      var b, i := next[HEAD], 0;
      while b != HEAD
        invariant i <= NBUF && b == (if i < NBUF then order[i] else HEAD) && bufs == old(bufs)
        invariant forall j: nat | j < i ::
                    order[j] < NBUF && (bufs[order[j]].dev != dev || bufs[order[j]].blockno != blockno)
        decreases NBUF - i
      {
        OnList(order, i);
        if bufs[b].dev == dev && bufs[b].blockno == blockno {
          UniqueCounted(bufs, b, Inc(bufs[b].refcnt));
          OnlyOne(bufs, b);
          bufs := bufs[b := bufs[b].(refcnt := Inc(bufs[b].refcnt))];
          return Some(b);
        }
        Forward(next, prev, order, i);
        b, i := next[b], i + 1;
      }
      if i < NBUF {
        OnList(order, i);
      }
      NotCached(order, bufs, dev, blockno);
      b, i := prev[HEAD], NBUF;
      OnList(order, NBUF - 1);
      while b != HEAD
        invariant 0 <= i <= NBUF && b == (if i > 0 then order[i - 1] else HEAD) && bufs == old(bufs)
        invariant forall j: nat | i <= j < NBUF :: order[j] < NBUF && bufs[order[j]].refcnt > 0
        decreases i
      {
        OnList(order, i - 1);
        if bufs[b].refcnt == 0 {
          Oldest(order, stamp, clock, bufs, i - 1);
          UniqueRecycled(bufs, b, Buf(dev, blockno, false, 1));
          bufs := bufs[b := Buf(dev, blockno, false, 1)];
          return Some(b);
        }
        Backward(next, prev, order, i);
        b, i := prev[b], i - 1;
      }
      AllInUse(order, bufs);
      return None;
    }

    /** Keeps a buffer from being recycled without holding it. */
    method Bpin(b: nat)
      requires Valid() && b < NBUF
      modifies `bufs
      ensures Valid() && bufs == old(bufs)[b := old(bufs)[b].(refcnt := Inc(old(bufs)[b].refcnt))]
    {
      hide RingOk, ByRelease, Unique;
      UniqueCounted(bufs, b, Inc(bufs[b].refcnt));
      bufs := bufs[b := bufs[b].(refcnt := Inc(bufs[b].refcnt))];
    }

    /** Lets a pinned buffer be recycled again; it keeps its place on the list even when this was the
        last reference. */
    method Bunpin(b: nat)
      requires Valid() && b < NBUF
      modifies `bufs
      ensures Valid() && bufs == old(bufs)[b := old(bufs)[b].(refcnt := Dec(old(bufs)[b].refcnt))]
    {
      hide RingOk, ByRelease, Unique;
      UniqueCounted(bufs, b, Dec(bufs[b].refcnt));
      bufs := bufs[b := bufs[b].(refcnt := Dec(bufs[b].refcnt))];
    }

    /** Gives a reference back; the last one moves the buffer to the front of the list. */
    method Brelse(b: nat)
      requires Valid() && b < NBUF
      modifies this
      ensures Valid() && bufs == old(bufs)[b := old(bufs)[b].(refcnt := Dec(old(bufs)[b].refcnt))]
      ensures bufs[b].refcnt != 0 ==> order == old(order) && stamp == old(stamp) && clock == old(clock)
      ensures bufs[b].refcnt == 0 ==> order[0] == b && stamp == old(stamp)[b := old(clock)] && clock == old(clock) + 1
    {
      hide RingOk, ByRelease, Unique, ToFront;
      UniqueCounted(bufs, b, Dec(bufs[b].refcnt));
      bufs := bufs[b := bufs[b].(refcnt := Dec(bufs[b].refcnt))];
      if bufs[b].refcnt == 0 {
        ghost var k := Place(order, b);
        ghost var ring := [HEAD] + order;
        ghost var next0, prev0 := next, prev;
        Around(next, prev, order, k);
        prev := prev[next[b] := prev[b]];
        next := next[prev[b] := next[b]];
        Moved(next0, prev0, order, k, next, prev);
        ghost var next1, prev1 := next, prev;
        next := next[b := next[HEAD]];
        prev := prev[b := HEAD];
        prev := prev[next[HEAD] := b];
        next := next[HEAD := b];
        Fronted(next1, prev1, order, k, next, prev);
        ToFrontOk(order, k, stamp, clock);
        StampSize(order, stamp, clock);
        FrontAt(order, k, 0);
        order, stamp, clock := ToFront(order, k), stamp[b := clock], clock + 1;
      }
    }
  }

  lemma Enter(next: seq<nat>, prev: seq<nat>, order: seq<nat>)
    requires RingOk(next, prev, [HEAD] + order) && |order| == NBUF
    ensures HEAD < |next| == |prev| && next[HEAD] == order[0] && prev[HEAD] == order[NBUF - 1]
  {
    var ring := [HEAD] + order;
    assert Linked(next, prev, ring[0], ring[0 + 1]);
  }

  lemma Forward(next: seq<nat>, prev: seq<nat>, order: seq<nat>, i: nat)
    requires RingOk(next, prev, [HEAD] + order) && i < |order|
    ensures order[i] < |next| && next[order[i]] == if i + 1 < |order| then order[i + 1] else HEAD
  {
    var ring := [HEAD] + order;
    assert i + 1 < |ring| - 1 ==> Linked(next, prev, ring[i + 1], ring[i + 1 + 1]);
  }

  lemma Backward(next: seq<nat>, prev: seq<nat>, order: seq<nat>, i: nat)
    requires RingOk(next, prev, [HEAD] + order) && 0 < i <= |order|
    ensures order[i - 1] < |prev| && prev[order[i - 1]] == if i > 1 then order[i - 2] else HEAD
  {
    var ring := [HEAD] + order;
    assert Linked(next, prev, ring[i - 1], ring[i - 1 + 1]);
  }

  lemma Around(next: seq<nat>, prev: seq<nat>, order: seq<nat>, k: nat)
    requires RingOk(next, prev, [HEAD] + order) && k < |order|
    ensures order[k] < |next| == |prev| && next[order[k]] < |prev| && prev[order[k]] < |next|
  {
    Backward(next, prev, order, k + 1);
    var ring := [HEAD] + order;
    assert Linked(next, prev, ring[k], ring[k + 1]);
    assert k + 1 < |ring| - 1 ==> Linked(next, prev, ring[k + 1], ring[k + 1 + 1]);
  }

  lemma Moved(next: seq<nat>, prev: seq<nat>, order: seq<nat>, k: nat, next': seq<nat>, prev': seq<nat>)
    requires RingOk(next, prev, [HEAD] + order) && k < |order| && order[k] < |next| == |prev|
    requires next[order[k]] < |prev| && prev[order[k]] < |next|
    requires prev' == prev[next[order[k]] := prev[order[k]]]
    requires prev'[order[k]] < |next| && next' == next[prev'[order[k]] := next[order[k]]]
    ensures RingOk(next', prev', [HEAD] + (order[..k] + order[k + 1..])) && HEAD < |next'| && next'[HEAD] < |prev'|
  {
    var ring := [HEAD] + order;
    assert next[order[k]] != order[k] by {
      assert k + 1 < |ring| - 1 ==> Linked(next, prev, ring[k + 1], ring[k + 1 + 1]);
    }
    Unlink(next, prev, ring, k + 1, next', prev');
    var rest := ring[..k + 1] + ring[k + 2..];
    assert rest == [HEAD] + (order[..k] + order[k + 1..]);
    assert |rest| > 1 ==> Linked(next', prev', rest[0], rest[0 + 1]);
  }

  lemma Fronted(next: seq<nat>, prev: seq<nat>, order: seq<nat>, k: nat, next': seq<nat>, prev': seq<nat>)
    requires k < |order| && RingOk(next, prev, [HEAD] + (order[..k] + order[k + 1..])) && Distinct(order)
    requires order[k] < HEAD < |next| == |prev| && next[HEAD] < |prev|
    requires next' == next[order[k] := next[HEAD]][HEAD := order[k]]
             && prev' == prev[order[k] := HEAD][next[HEAD] := order[k]]
    ensures RingOk(next', prev', [HEAD] + ToFront(order, k))
  {
    var ring := [HEAD] + (order[..k] + order[k + 1..]);
    LinkFront(next, prev, ring, order[k], next', prev');
    assert [ring[0], order[k]] + ring[1..] == [HEAD] + ToFront(order, k);
  }
}
