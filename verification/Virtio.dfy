/** The request queue of kernel/virtio_disk.c: NUM descriptors, chains of three, the rings on which the
    driver offers requests and the device returns them, and the interrupt handler (section 2.6 of
    VIRTIO 1.1). */
module Virtio {
  import opened Prelude
  import opened Blocks

  const NUM := 8
  const WRAP16 := 0x1_0000

  /** What a descriptor's address leads to: the header of a request, a buffer's data, the status byte of
      the request at head `h`. */
  datatype Addr = Nothing | Header(out: bool, sector: nat) | BufData(buf: nat) | StatusOf(h: nat)

  /** A descriptor: what it leads to, whether the device writes there, and the one that follows, if any. */
  datatype Desc = Desc(addr: Addr, len: nat, write: bool, more: bool, next: nat)

  /** Write the buffer to the sector, or read it. */
  datatype Request = Request(write: bool, sector: nat, buf: nat)

  /** Where a request is: offered; with the device; on the used ring; seen by the interrupt handler. */
  datatype Stage = Queued | WithDevice | Used | Seen

  /** A live chain: its other two descriptors, its request, and how far it has come. */
  datatype Chain = Chain(second: nat, third: nat, req: Request, stage: Stage)

  type Chains = map<nat, Chain>

  /** The three descriptors of a request. */
  function First(req: Request, second: nat): (d: Desc) { Desc(Header(req.write, req.sector), 16, false, true, second) }
  function Second(req: Request, third: nat): (d: Desc) { Desc(BufData(req.buf), BSIZE, !req.write, true, third) }
  function Third(h: nat): (d: Desc) { Desc(StatusOf(h), 1, true, false, 0) }

  /** The request a device finds by following the chain from `h`. */
  function Described(desc: seq<Desc>, h: nat): (r: Option<Request>) {
    if h < |desc| && desc[h].addr.Header? && desc[h].len == 16 && !desc[h].write && desc[h].more
        && desc[h].next < |desc| then
      var d1 := desc[desc[h].next];
      if && d1.addr.BufData? && d1.len == BSIZE && d1.write == !desc[h].addr.out && d1.more && d1.next < |desc|
         && desc[d1.next] == Third(h) then
        Some(Request(desc[h].addr.out, desc[h].addr.sector, d1.addr.buf))
      else None
    else None
  }

  ghost predicate ChainOk(free: seq<bool>, desc: seq<Desc>, own: map<nat, nat>, h: nat, c: Chain)
    requires |free| == |desc| == NUM
  {
    && h < NUM && c.second < NUM && c.third < NUM && h != c.second && h != c.third && c.second != c.third
    && !free[h] && !free[c.second] && !free[c.third]
    && desc[h] == First(c.req, c.second) && desc[c.second] == Second(c.req, c.third) && desc[c.third] == Third(h)
    && h in own && own[h] == h && c.second in own && own[c.second] == h && c.third in own && own[c.third] == h
  }

  /** Every descriptor that is not free belongs to one chain, and a chain has three. */
  ghost predicate DescsOk(free: seq<bool>, desc: seq<Desc>, chains: Chains, own: map<nat, nat>) {
    && |free| == |desc| == NUM
    && (forall h {:trigger ChainOk(free, desc, own, h, chains[h])} | h in chains ::
          ChainOk(free, desc, own, h, chains[h]))
    && OwnOk(free, chains, own)
  }

  ghost predicate OwnOk(free: seq<bool>, chains: Chains, own: map<nat, nat>)
    requires |free| == NUM
  {
    && (forall i: nat | i < NUM :: i in own <==> !free[i])
    && (forall i | i in own :: MemberOf(chains, own[i], i))
  }

  predicate MemberOf(chains: Chains, h: nat, i: nat) {
    i < NUM && h in chains && (i == h || i == chains[h].second || i == chains[h].third)
  }

  function Slot(a: nat, k: nat): (i: nat)
    ensures i < NUM
  {
    (a + k) % NUM
  }

  /** A ring of heads: its slots, its writer's index, which is 16 bits wide, and the slot its reader looks
      at next. */
  datatype Ring = Ring(slots: seq<nat>, id: nat, first: nat) {
    predicate Empty() { first % NUM == id % NUM }

    function Put(h: nat): (r: Ring)
      requires |slots| == NUM
    {
      Ring(slots[id % NUM := h], (id + 1) % WRAP16, first)
    }

    function Skip(): (r: Ring) {
      this.(first := (first + 1) % NUM)
    }
  }

  /** The three descriptors of a request: the header the device reads, the buffer's 1024 bytes, which it reads
      for a write and else writes, and the status byte it writes. */
  ghost predicate Formatted(desc: seq<Desc>, c: Chain, h: nat, write: bool, sector: nat, buf: nat) {
    && h < |desc| && c.second < |desc| && c.third < |desc|
    && desc[h] == Desc(Header(write, sector), 16, false, true, c.second)
    && desc[c.second] == Desc(BufData(buf), 1024, !write, true, c.third)
    && desc[c.third] == Desc(StatusOf(h), 1, true, false, 0)
  }

  /** A head is put in the slot the index says, modulo 8, and the index, of 16 bits, goes up by one. */
  ghost predicate Appended(was: Ring, now: Ring, h: nat) {
    && |was.slots| == 8 && now.slots == was.slots[was.id % 8 := h]
    && now.id == (if was.id == 0xFFFF then 0 else was.id + 1) && now.first == was.first
  }

  lemma IsFormatted(free: seq<bool>, desc: seq<Desc>, chains: Chains, own: map<nat, nat>, h: nat)
    requires DescsOk(free, desc, chains, own) && h in chains
    ensures var req := chains[h].req; Formatted(desc, chains[h], h, req.write, req.sector, req.buf)
  {
    assert ChainOk(free, desc, own, h, chains[h]);
  }

  lemma IsAppended(ring: Ring, h: nat)
    requires |ring.slots| == NUM && ring.id < WRAP16
    ensures Appended(ring, ring.Put(h), h)
  {
  }

  /** The heads on a ring that its reader has not looked at are `pend`, which are the chains at this stage. */
  ghost predicate RingOk(chains: Chains, ring: Ring, pend: seq<nat>, stage: Stage) {
    && |ring.slots| == NUM && ring.first < NUM && ring.id < WRAP16 && Slot(ring.first, |pend|) == ring.id % NUM
    && Distinct(pend)
    && (forall k: nat | k < |pend| :: ring.slots[Slot(ring.first, k)] == pend[k])
    && (forall k | 0 <= k < |pend| :: pend[k] in chains && chains[pend[k]].stage == stage)
    && (forall h | h in chains && chains[h].stage == stage :: h in pend)
  }

  /** A buffer is marked as with the disk exactly while its request has not been seen complete. */
  ghost predicate BufsOk(chains: Chains, info: seq<Option<nat>>, busy: set<nat>) {
    && |info| == NUM
    && (forall h | h in chains && h < NUM ::
          info[h] == Some(chains[h].req.buf) && (chains[h].req.buf in busy <==> chains[h].stage != Seen))
    && (forall g, h | g in chains && h in chains && chains[g].req.buf == chains[h].req.buf :: g == h)
  }

  // ---------- at most two requests ----------

  ghost function Members(h: nat, c: Chain): (s: set<nat>) {
    {h, c.second, c.third}
  }

  /** The descriptors of live chains, three for each. */
  lemma {:induction false} ThreeEach(free: seq<bool>, desc: seq<Desc>, chains: Chains, own: map<nat, nat>,
                                     heads: set<nat>)
    returns (all: set<nat>)
    requires DescsOk(free, desc, chains, own) && heads <= chains.Keys
    ensures |all| == 3 * |heads| && forall i | i in all :: i in own && own[i] in heads
    decreases heads
  {
    if heads == {} {
      all := {};
    } else {
      var h :| h in heads;
      var rest := ThreeEach(free, desc, chains, own, heads - {h});
      assert ChainOk(free, desc, own, h, chains[h]);
      all := rest + Members(h, chains[h]);
      assert rest !! Members(h, chains[h]);
    }
  }

  lemma AtMost(s: set<nat>, n: nat)
    requires forall i | i in s :: i < n
    ensures |s| <= n
    decreases n
  {
    if s != {} {
      var i :| i in s;
      AtMost(s - {n - 1}, n - 1);
      assert s <= (s - {n - 1}) + {n - 1};
      assert |s| <= |s - {n - 1}| + 1;
    }
  }

  lemma TwoChains(free: seq<bool>, desc: seq<Desc>, chains: Chains, own: map<nat, nat>)
    requires DescsOk(free, desc, chains, own)
    ensures |chains.Keys| <= 2
  {
    var all := ThreeEach(free, desc, chains, own, chains.Keys);
    AtMost(all, NUM);
  }

  lemma SubsetSize(s: set<nat>, t: set<nat>)
    requires s <= t
    ensures |s| <= |t|
    decreases s
  {
    if x :| x in s {
      SubsetSize(s - {x}, t - {x});
    }
  }

  ghost function ToSet(s: seq<nat>): (r: set<nat>) {
    set x | x in s
  }

  lemma {:induction false} DistinctSize(s: seq<nat>)
    requires Distinct(s)
    ensures |ToSet(s)| == |s|
  {
    if s != [] {
      var init, last := s[..|s| - 1], s[|s| - 1];
      DistinctSize(init);
      assert s == init + [last];
      assert ToSet(s) == ToSet(init) + {last} && last !in ToSet(init);
    }
  }

  /** With at most two requests on the ring, comparing the indices modulo NUM tells whether any is. */
  lemma PendingExact(free: seq<bool>, desc: seq<Desc>, chains: Chains, own: map<nat, nat>, ring: Ring, pend: seq<nat>,
                     stage: Stage)
    requires DescsOk(free, desc, chains, own) && RingOk(chains, ring, pend, stage)
    ensures |pend| <= 2 && (ring.Empty() <==> pend == [])
  {
    hide DescsOk;
    TwoChains(free, desc, chains, own);
    assert |pend| <= 2 by {
      DistinctSize(pend);
      SubsetSize(ToSet(pend), chains.Keys);
    }
  }

  // ---------- steps ----------

  /** The sector of a block, in 32-bit arithmetic. */
  function Sector(blockno: nat): (sector: nat) {
    blockno * (BSIZE / 512) % WRAP
  }

  /** Two blocks never share a sector below block number 2^31, and above it they do. */
  lemma SectorIff(a: nat, b: nat)
    requires a < WRAP && b < WRAP
    ensures Sector(a) == Sector(b) <==> a % 0x8000_0000 == b % 0x8000_0000
    ensures Sector(a) == 2 * a <==> a < 0x8000_0000
  {
  }

  /** What the device finds is what was submitted. */
  lemma DeviceFinds(free: seq<bool>, desc: seq<Desc>, chains: Chains, own: map<nat, nat>, h: nat)
    requires DescsOk(free, desc, chains, own) && h in chains
    ensures |free| == |desc| == NUM && h < NUM && Described(desc, h) == Some(chains[h].req)
  {
    assert ChainOk(free, desc, own, h, chains[h]);
  }

  /** A chain none of whose descriptors changed is what it was. */
  lemma ChainSame(free: seq<bool>, desc: seq<Desc>, own: map<nat, nat>, free': seq<bool>, desc': seq<Desc>,
                  own': map<nat, nat>, g: nat, c: Chain)
    requires |free| == |desc| == |free'| == |desc'| == NUM && ChainOk(free, desc, own, g, c)
    requires forall i | i in own && own[i] == g && i < NUM ::
               i in own' && own'[i] == g && free'[i] == free[i] && desc'[i] == desc[i]
    ensures ChainOk(free', desc', own', g, c)
  {
  }

  /** Three free descriptors become a chain. */
  lemma AddChain(free: seq<bool>, desc: seq<Desc>, chains: Chains, own: map<nat, nat>, h: nat, c: Chain,
                 free': seq<bool>, desc': seq<Desc>)
    requires DescsOk(free, desc, chains, own) && h < NUM && c.second < NUM && c.third < NUM
    requires h != c.second && h != c.third && c.second != c.third && free[h] && free[c.second] && free[c.third]
    requires free' == free[h := false][c.second := false][c.third := false]
    requires desc' == desc[h := First(c.req, c.second)][c.second := Second(c.req, c.third)][c.third := Third(h)]
    ensures h !in chains && DescsOk(free', desc', chains[h := c], own[h := h][c.second := h][c.third := h])
  {
    var own' := own[h := h][c.second := h][c.third := h];
    assert h !in own && c.second !in own && c.third !in own;
    assert h in chains ==> ChainOk(free, desc, own, h, chains[h]);
    AddOwn(free, chains, own, h, c, free');
    NewChain(free, desc, own, h, c, free', desc');
    hide ChainOk, First, Second, Third, OwnOk;
    forall g | g in chains ensures ChainOk(free', desc', own', g, chains[g]) && g != h {
      HeadInRange(free, desc, chains, own, g);
      ChainSame(free, desc, own, free', desc', own', g, chains[g]);
    }
  }

  lemma NewChain(free: seq<bool>, desc: seq<Desc>, own: map<nat, nat>, h: nat, c: Chain, free': seq<bool>,
                 desc': seq<Desc>)
    requires |free| == |desc| == NUM && h < NUM && c.second < NUM && c.third < NUM
    requires h != c.second && h != c.third && c.second != c.third
    requires free' == free[h := false][c.second := false][c.third := false]
    requires desc' == desc[h := First(c.req, c.second)][c.second := Second(c.req, c.third)][c.third := Third(h)]
    ensures ChainOk(free', desc', own[h := h][c.second := h][c.third := h], h, c)
  {
  }

  lemma AddOwn(free: seq<bool>, chains: Chains, own: map<nat, nat>, h: nat, c: Chain, free': seq<bool>)
    requires |free| == NUM && h < NUM && c.second < NUM && c.third < NUM && OwnOk(free, chains, own) && h !in chains
    requires free' == free[h := false][c.second := false][c.third := false]
    ensures OwnOk(free', chains[h := c], own[h := h][c.second := h][c.third := h])
  {
  }

  function Cleared(desc: seq<Desc>, i: nat): (r: seq<Desc>)
    requires i < |desc|
    ensures |r| == |desc| && r[i].more == desc[i].more && r[i].next == desc[i].next
    ensures forall j | 0 <= j < |desc| && j != i :: r[j] == desc[j]
  {
    desc[i := desc[i].(addr := Nothing)]
  }

  /** A chain is taken apart: exactly its three descriptors become free. */
  lemma DropChain(free: seq<bool>, desc: seq<Desc>, chains: Chains, own: map<nat, nat>, h: nat, free': seq<bool>,
                  desc': seq<Desc>)
    requires DescsOk(free, desc, chains, own) && h in chains && ChainOk(free, desc, own, h, chains[h])
    requires free' == free[h := true][chains[h].second := true][chains[h].third := true]
    requires desc' == Cleared(Cleared(Cleared(desc, h), chains[h].second), chains[h].third)
    ensures DescsOk(free', desc', chains - {h}, own - Members(h, chains[h]))
  {
    var own' := own - Members(h, chains[h]);
    assert forall i | i in own && own[i] != h :: i in own';
    DropOwn(free, chains, own, h, free');
    hide ChainOk, Cleared, OwnOk;
    forall g | g in chains - {h} ensures ChainOk(free', desc', own', g, chains[g]) {
      HeadInRange(free, desc, chains, own, g);
      ChainSame(free, desc, own, free', desc', own', g, chains[g]);
    }
  }

  lemma DropOwn(free: seq<bool>, chains: Chains, own: map<nat, nat>, h: nat, free': seq<bool>)
    requires |free| == NUM && h in chains && OwnOk(free, chains, own) && Members(h, chains[h]) <= own.Keys
    requires h < NUM && chains[h].second < NUM && chains[h].third < NUM
    requires free' == free[h := true][chains[h].second := true][chains[h].third := true]
    ensures OwnOk(free', chains - {h}, own - Members(h, chains[h]))
  {
  }

  class DiskQueue {
    /** disk.free, desc, info[].b, info[].status. */
    var free: seq<bool>
    var desc: seq<Desc>
    var info: seq<Option<nat>>
    var status: seq<nat>
    /** avail[2..], avail[1], and how far the device has looked. */
    var avail: Ring
    /** used->elems, used->id and used_idx. */
    var used: Ring
    /** The buffers whose disk field is 1. */
    var busy: set<nat>
    /** The buffers' contents and the disk's, by first sector. */
    var data: map<nat, Block>
    var media: map<nat, Block>
    ghost var chains: Chains
    ghost var own: map<nat, nat>
    ghost var queue: seq<nat>
    ghost var pend: seq<nat>

    ghost predicate Valid()
      reads this
    {
      && DescsOk(free, desc, chains, own) && BufsOk(chains, info, busy) && |status| == NUM
      && RingOk(chains, avail, queue, Queued) && RingOk(chains, used, pend, Used)
    }

    constructor ()
      ensures Valid() && chains == map[] && busy == {} && queue == [] && pend == []
    {
      free, desc, info := seq(NUM, _ => true), seq(NUM, _ => Desc(Nothing, 0, false, false, 0)), seq(NUM, _ => None);
      avail, used, status := Ring(seq(NUM, _ => 0), 0, 0), Ring(seq(NUM, _ => 0), 0, 0), seq(NUM, _ => 0);
      busy, data, media := {}, map[], map[];
      chains, own, queue, pend := map[], map[], [], [];
    }

    /** Takes the first free descriptor. */
    method AllocDesc() returns (i: Option<nat>)
      requires |free| == NUM
      modifies `free
      ensures i.None? ==> free == old(free) && forall k | 0 <= k < NUM :: !free[k]
      ensures i.Some? ==> && i.value < NUM && old(free)[i.value] && free == old(free)[i.value := false]
                          && forall k | 0 <= k < i.value :: !old(free)[k]
    {
      var k := 0;
      while k < NUM
        invariant k <= NUM && free == old(free) && forall j | 0 <= j < k :: !free[j]
      {
        if free[k] {
          free := free[k := false];
          return Some(k);
        }
        k := k + 1;
      }
      return None;
    }

    /** Frees a descriptor; panics when it is free already. */
    method FreeDesc(i: nat) returns (panic: bool)
      requires |free| == |desc| == NUM
      modifies `free, `desc
      ensures panic <==> i >= NUM || old(free)[i]
      ensures free == if panic then old(free) else old(free)[i := true]
      ensures desc == if panic then old(desc) else Cleared(old(desc), i)
    {
      if i >= NUM || free[i] {
        return true;
      }
      desc := Cleared(desc, i);
      free := free[i := true];
      return false;
    }

    /** Takes three descriptors, or none. */
    method Alloc3Desc() returns (idx: seq<nat>)
      requires |free| == |desc| == NUM
      modifies `free, `desc
      ensures idx == [] ==> free == old(free) && |desc| == NUM
                            && forall i | 0 <= i < NUM && !free[i] :: desc[i] == old(desc)[i]
      ensures idx != [] ==> && |idx| == 3 && idx[0] < idx[1] < idx[2] < NUM && desc == old(desc)
                            && old(free)[idx[0]] && old(free)[idx[1]] && old(free)[idx[2]]
                            && free == old(free)[idx[0] := false][idx[1] := false][idx[2] := false]
      ensures idx == [] ==> forall a, b, c | 0 <= a < b < c < NUM :: !(free[a] && free[b] && free[c])
    {
      var a := AllocDesc();
      if a.None? {
        return [];
      }
      var b := AllocDesc();
      if b.None? {
        var _ := FreeDesc(a.value);
        return [];
      }
      var c := AllocDesc();
      if c.None? {
        var _ := FreeDesc(a.value);
        var _ := FreeDesc(b.value);
        return [];
      }
      return [a.value, b.value, c.value];
    }

    /** Frees the chain that begins at `h`: each of its three descriptors once, without panic. */
    method FreeChain(h: nat) returns (panic: bool)
      requires DescsOk(free, desc, chains, own) && h in chains && ChainOk(free, desc, own, h, chains[h])
      modifies `free, `desc, `chains, `own
      ensures !panic && DescsOk(free, desc, chains, own) && chains == old(chains) - {h}
      ensures free == old(free)[h := true][old(chains)[h].second := true][old(chains)[h].third := true]
    {
      hide DescsOk, Cleared;
      HeadInRange(free, desc, chains, own, h);
      ghost var c := chains[h];
      var i := h;
      ghost var left := 3;
      while true
        invariant chains == old(chains) && own == old(own)
        invariant 0 < left <= 3 && i == (if left == 3 then h else if left == 2 then c.second else c.third)
        invariant free == (if left == 3 then old(free) else if left == 2 then old(free)[h := true]
                           else old(free)[h := true][c.second := true])
        invariant desc == (if left == 3 then old(desc) else if left == 2 then Cleared(old(desc), h)
                           else Cleared(Cleared(old(desc), h), c.second))
        decreases left
      {
        panic := FreeDesc(i);
        if !desc[i].more {
          break;
        }
        i := desc[i].next;
        left := left - 1;
      }
      DropChain(old(free), old(desc), chains, own, h, free, desc);
      own := own - Members(h, c);
      chains := chains - {h};
    }

    /** Offers a request for buffer `b` to the device, if three descriptors are free. */
    method Submit(b: nat, blockno: nat, write: bool) returns (h: Option<nat>)
      requires Valid() && b !in busy && forall g | g in chains :: chains[g].req.buf != b
      modifies `free, `desc, `info, `status, `avail, `busy, `chains, `own, `queue
      ensures Valid()
      ensures h.None? ==> chains == old(chains) && busy == old(busy) && free == old(free) && queue == old(queue)
      ensures h.Some? ==> && h.value !in old(chains) && h.value in chains
                          && chains == old(chains)[h.value := chains[h.value]]
                          && chains[h.value].req == Request(write, Sector(blockno), b)
                          && chains[h.value].stage == Queued
                          && busy == old(busy) + {b} && queue == old(queue) + [h.value]
                          && h.value < |old(status)| && status == old(status)[h.value := 0]
      ensures h.Some? ==> Formatted(desc, chains[h.value], h.value, write, Sector(blockno), b)
                          && Appended(old(avail), avail, h.value)
    {
      hide RingOk, BufsOk, DescsOk, First, Second, Third, Sector, Ring.Put, Cleared, ChainOk, Slot, Formatted, Appended;
      Sizes(free, desc, chains, own, info, busy);
      var idx := Alloc3Desc();
      if idx == [] {
        SameDescs(old(free), old(desc), chains, own, desc);
        return None;
      }
      RingFacts(chains, avail, queue, Queued);
      IsAppended(avail, idx[0]);
      Offer(idx, Request(write, Sector(blockno), b), old(free), old(desc));
      IsFormatted(free, desc, chains, own, idx[0]);
      return Some(idx[0]);
    }

    /** Formats the three descriptors and offers them. */
    method Offer(idx: seq<nat>, req: Request, ghost free0: seq<bool>, ghost desc0: seq<Desc>)
      requires DescsOk(free0, desc0, chains, own) && BufsOk(chains, info, busy) && |status| == NUM
      requires RingOk(chains, avail, queue, Queued) && RingOk(chains, used, pend, Used)
      requires |free0| == |desc| == |info| == NUM && desc == desc0 && |idx| == 3 && idx[0] < idx[1] < idx[2] < NUM
      requires free0[idx[0]] && free0[idx[1]] && free0[idx[2]]
               && free == free0[idx[0] := false][idx[1] := false][idx[2] := false]
      requires req.buf !in busy && forall g | g in chains :: chains[g].req.buf != req.buf
      modifies `desc, `info, `status, `avail, `busy, `chains, `own, `queue
      ensures Valid() && idx[0] !in old(chains) && chains == old(chains)[idx[0] := Chain(idx[1], idx[2], req, Queued)]
      ensures status == old(status)[idx[0] := 0] && busy == old(busy) + {req.buf} && queue == old(queue) + [idx[0]]
      ensures |old(avail).slots| == NUM && avail == old(avail).Put(idx[0])
    {
      hide RingOk, BufsOk, DescsOk, First, Second, Third, Ring.Put;
      RingFacts(chains, avail, queue, Queued);
      ghost var c := Chain(idx[1], idx[2], req, Queued);
      status := status[idx[0] := 0];
      desc := desc[idx[0] := First(req, idx[1])][idx[1] := Second(req, idx[2])][idx[2] := Third(idx[0])];
      Offered(free0, desc0, chains, own, info, busy, avail, queue, used, pend, idx[0], c, free, desc);
      busy := busy + {req.buf};
      info := info[idx[0] := Some(req.buf)];
      avail := avail.Put(idx[0]);
      own := own[idx[0] := idx[0]][idx[1] := idx[0]][idx[2] := idx[0]];
      chains, queue := chains[idx[0] := c], queue + [idx[0]];
    }

    /** The device takes the next request offered, if there is one, and finds what was submitted. */
    method Fetch() returns (r: Option<(nat, Request)>)
      requires Valid()
      modifies `avail, `chains, `queue
      ensures Valid() && (r.None? <==> old(queue) == [])
      ensures r.None? ==> chains == old(chains) && queue == []
      ensures r.Some? ==> && r.value.0 == old(queue)[0] && r.value.0 in old(chains)
                          && r.value.1 == old(chains)[r.value.0].req
                          && queue == old(queue)[1..]
                          && chains == old(chains)[r.value.0 := old(chains)[r.value.0].(stage := WithDevice)]
    {
      hide RingOk, BufsOk, DescsOk, Described;
      PendingExact(free, desc, chains, own, avail, queue, Queued);
      RingFacts(chains, avail, queue, Queued);
      if avail.Empty() {
        return None;
      }
      var h := avail.slots[avail.first];
      RingPop(chains, avail, queue, Queued, WithDevice);
      DeviceFinds(free, desc, chains, own, h);
      RingFrame(chains, used, pend, Used, h, chains[h].(stage := WithDevice));
      StageBufs(chains, info, busy, h, WithDevice);
      StageDescs(free, desc, chains, own, h, WithDevice);
      r := Some((h, Described(desc, h).value));
      avail := avail.Skip();
      chains, queue := chains[h := chains[h].(stage := WithDevice)], queue[1..];
    }

    /** The device completes any request it has, in any order.  With status 0 it has moved the data. */
    method Complete(h: nat, code: nat)
      requires Valid() && h in chains && chains[h].stage == WithDevice
      modifies `used, `status, `data, `media, `chains, `pend
      ensures Valid() && chains == old(chains)[h := old(chains)[h].(stage := Used)] && pend == old(pend) + [h]
      ensures h < |old(status)| && status == old(status)[h := code] && Appended(old(used), used, h)
      ensures var req := old(chains)[h].req;
              && media == (if code == 0 && req.write then old(media)[req.sector := At(old(data), req.buf)]
                           else old(media))
              && data == (if code == 0 && !req.write then old(data)[req.buf := At(old(media), req.sector)]
                          else old(data))
    {
      hide RingOk, BufsOk, DescsOk, Described, At, Ring.Put, Appended;
      PendingExact(free, desc, chains, own, used, pend, Used);
      RingFacts(chains, used, pend, Used);
      DeviceFinds(free, desc, chains, own, h);
      StageBufs(chains, info, busy, h, Used);
      RingAppend(chains, used, pend, Used, h, chains[h].(stage := Used));
      IsAppended(used, h);
      RingFrame(chains, avail, queue, Queued, h, chains[h].(stage := Used));
      StageDescs(free, desc, chains, own, h, Used);
      var req := Described(desc, h).value;
      if code == 0 && req.write {
        media := media[req.sector := At(data, req.buf)];
      } else if code == 0 {
        data := data[req.buf := At(media, req.sector)];
      }
      status := status[h := code];
      used := used.Put(h);
      chains := chains[h := chains[h].(stage := Used)];
      pend := pend + [h];
    }

    /** The interrupt handler: the requests on the used ring are seen in order, each once, up to the first
        that failed, where it panics. */
    method Intr() returns (panic: bool)
      requires Valid()
      modifies `used, `busy, `chains, `pend
      ensures Valid() && |pend| <= |old(pend)| && pend == old(pend)[|old(pend)| - |pend|..]
      ensures var seen := old(pend)[..|old(pend)| - |pend|];
              && (forall h | h in seen :: h < NUM && status[h] == 0)
              && (panic <==> pend != []) && (panic ==> pend[0] < NUM && status[pend[0]] != 0)
              && AllSeen(old(chains), chains, seen) && busy == old(busy) - Bufs(old(chains), seen)
    {
      hide DescsOk, RingOk, BufsOk, AllSeen, Bufs;
      PendingExact(free, desc, chains, own, used, pend, Used);
      RingFacts(chains, used, pend, Used);
      ghost var seen: seq<nat> := [];
      SeenNone(chains, busy);
      while !used.Empty()
        invariant Valid() && old(pend) == seen + pend && AllSeen(old(chains), chains, seen)
        invariant forall h | h in seen :: h < NUM && status[h] == 0
        invariant used.Empty() <==> pend == []
        invariant busy == old(busy) - Bufs(old(chains), seen)
        decreases |pend|
      {
        RingFacts(chains, used, pend, Used);
        var id := used.slots[used.first];
        RingPop(chains, used, pend, Used, Seen);
        HeadInRange(free, desc, chains, own, id);
        if status[id] != 0 {
          return true;
        }
        RingFrame(chains, avail, queue, Queued, id, chains[id].(stage := Seen));
        SeeBufs(chains, info, busy, id);
        StageDescs(free, desc, chains, own, id, Seen);
        SeenMore(old(chains), chains, seen, old(busy), id);
        busy := busy - {info[id].value};
        used := used.Skip();
        chains := chains[id := chains[id].(stage := Seen)];
        seen, pend := seen + [id], pend[1..];
        PendingExact(free, desc, chains, own, used, pend, Used);
      }
      return false;
    }

    /** The waiting process goes on once its request was seen, and frees its chain. */
    method Finish(h: nat) returns (panic: bool)
      requires Valid() && h in chains && chains[h].req.buf !in busy
      modifies `free, `desc, `info, `chains, `own
      ensures Valid() && !panic && chains == old(chains) - {h}
      ensures old(chains)[h].stage == Seen
    {
      hide DescsOk, RingOk, BufsOk;
      HeadInRange(free, desc, chains, own, h);
      FinishBufs(chains, info, busy, h);
      RingDrop(chains, avail, queue, Queued, h);
      RingDrop(chains, used, pend, Used, h);
      info := info[h := None];
      panic := FreeChain(h);
    }
  }

  /** What a buffer or the disk holds. */
  function At(m: map<nat, Block>, i: nat): (b: Block) {
    if i in m then m[i] else ZeroBlock()
  }

  /** The chains of these heads have been seen, and nothing else changed. */
  ghost predicate AllSeen(was: Chains, now: Chains, seen: seq<nat>) {
    now.Keys == was.Keys && forall h | h in was :: now[h] == if h in seen then was[h].(stage := Seen) else was[h]
  }

  ghost function Bufs(chains: Chains, heads: seq<nat>): (s: set<nat>) {
    set h | h in heads && h in chains :: chains[h].req.buf
  }

  lemma SeenNone(chains: Chains, busy: set<nat>)
    ensures AllSeen(chains, chains, []) && busy == busy - Bufs(chains, [])
  {
  }

  lemma SeenMore(was: Chains, now: Chains, seen: seq<nat>, busy: set<nat>, id: nat)
    requires AllSeen(was, now, seen) && id in now
    ensures AllSeen(was, now[id := now[id].(stage := Seen)], seen + [id])
    ensures busy - Bufs(was, seen) - {now[id].req.buf} == busy - Bufs(was, seen + [id])
  {
    assert Bufs(was, seen + [id]) == Bufs(was, seen) + {now[id].req.buf};
  }

  lemma SameDescs(free: seq<bool>, desc: seq<Desc>, chains: Chains, own: map<nat, nat>, desc': seq<Desc>)
    requires DescsOk(free, desc, chains, own) && |desc'| == NUM
             && forall i | 0 <= i < NUM && !free[i] :: desc'[i] == desc[i]
    ensures DescsOk(free, desc', chains, own)
  {
    forall g | g in chains ensures ChainOk(free, desc', own, g, chains[g]) {
      assert ChainOk(free, desc, own, g, chains[g]);
    }
  }

  lemma StageBufs(chains: Chains, info: seq<Option<nat>>, busy: set<nat>, h: nat, stage: Stage)
    requires BufsOk(chains, info, busy) && h in chains && chains[h].stage != Seen && stage != Seen
    ensures BufsOk(chains[h := chains[h].(stage := stage)], info, busy)
  {
  }

  lemma StageDescs(free: seq<bool>, desc: seq<Desc>, chains: Chains, own: map<nat, nat>, h: nat, stage: Stage)
    requires DescsOk(free, desc, chains, own) && h in chains
    ensures DescsOk(free, desc, chains[h := chains[h].(stage := stage)], own)
  {
    var chains' := chains[h := chains[h].(stage := stage)];
    forall g | g in chains' ensures ChainOk(free, desc, own, g, chains'[g]) {
      assert ChainOk(free, desc, own, g, chains[g]);
    }
  }

  /** A chain reaches a ring's stage: its head is put where no pending head is. */
  lemma RingAppend(chains: Chains, ring: Ring, pend: seq<nat>, stage: Stage, h: nat, c: Chain)
    requires RingOk(chains, ring, pend, stage) && |pend| <= 2
    requires c.stage == stage && (h in chains ==> chains[h].stage != stage)
    ensures RingOk(chains[h := c], ring.Put(h), pend + [h], stage)
  {
    hide Slot;
    var pend', slots' := pend + [h], ring.Put(h).slots;
    IdNext(ring.first, |pend|, ring.id);
    forall k: nat | k < |pend'| ensures slots'[Slot(ring.first, k)] == pend'[k] {
      SlotsApart(ring.first, k, |pend|);
    }
    assert h !in pend;
  }

  /** The head at the front of a ring is taken, and its chain moves on. */
  lemma RingPop(chains: Chains, ring: Ring, pend: seq<nat>, stage: Stage, to: Stage)
    requires RingOk(chains, ring, pend, stage) && pend != [] && to != stage
    ensures var h := ring.slots[ring.first];
            && h in chains && chains[h].stage == stage && h == pend[0]
            && RingOk(chains[h := chains[h].(stage := to)], ring.Skip(), pend[1..], stage)
  {
    hide Slot;
    var first := ring.first;
    SlotNext(first, 0);
    assert ring.slots[Slot(first, 0)] == pend[0];
    var h, rest := ring.slots[first], pend[1..];
    SlotNext(first, |rest|);
    forall k: nat | k < |rest| ensures ring.slots[Slot((first + 1) % NUM, k)] == rest[k] {
      SlotNext(first, k);
      assert ring.slots[Slot(first, k + 1)] == pend[k + 1];
    }
    forall g | g in chains && g != h && chains[g].stage == stage ensures g in rest {
      var k :| 0 <= k < |pend| && pend[k] == g;
      assert rest[k - 1] == g;
    }
  }

  /** A change between other stages leaves the ring alone. */
  lemma RingFrame(chains: Chains, ring: Ring, pend: seq<nat>, stage: Stage, h: nat, c: Chain)
    requires RingOk(chains, ring, pend, stage) && c.stage != stage && (h in chains ==> chains[h].stage != stage)
    ensures RingOk(chains[h := c], ring, pend, stage)
  {
  }

  lemma RingDrop(chains: Chains, ring: Ring, pend: seq<nat>, stage: Stage, h: nat)
    requires RingOk(chains, ring, pend, stage) && h in chains && chains[h].stage != stage
    ensures RingOk(chains - {h}, ring, pend, stage)
  {
  }

  lemma IdNext(first: nat, n: nat, id: nat)
    requires Slot(first, n) == id % NUM
    ensures Slot(first, n + 1) == (id + 1) % WRAP16 % NUM
  {
    var y := id + 1;
    var q, r := y / WRAP16, y % WRAP16;
    Remainder(y, 0x2000 * q + r / NUM, r % NUM);
    var a, b := (first + n) / NUM, id / NUM;
    var c := id % NUM;
    assert first + n == NUM * a + c && id == NUM * b + c;
    if c + 1 < NUM {
      Remainder(first + n + 1, a, c + 1);
      Remainder(y, b, c + 1);
    } else {
      Remainder(first + n + 1, a + 1, 0);
      Remainder(y, b + 1, 0);
    }
  }

  lemma Remainder(x: nat, q: nat, r: nat)
    requires x == NUM * q + r && r < NUM
    ensures x % NUM == r
  {
  }

  lemma SlotsApart(a: nat, k: nat, n: nat)
    requires k <= n < NUM
    ensures Slot(a, k) == Slot(a, n) ==> k == n
  {
  }

  lemma SlotNext(a: nat, k: nat)
    ensures Slot((a + 1) % NUM, k) == Slot(a, k + 1) && (a < NUM ==> Slot(a, 0) == a)
  {
    var q, r := (a + 1) / NUM, (a + 1) % NUM;
    Remainder(a + k + 1, q + (r + k) / NUM, (r + k) % NUM);
    assert a < NUM ==> a % NUM == a;
  }

  lemma SeeBufs(chains: Chains, info: seq<Option<nat>>, busy: set<nat>, id: nat)
    requires BufsOk(chains, info, busy) && id in chains && id < NUM
    ensures |info| == NUM && info[id] == Some(chains[id].req.buf)
    ensures BufsOk(chains[id := chains[id].(stage := Seen)], info, busy - {info[id].value})
  {
  }

  lemma Sizes(free: seq<bool>, desc: seq<Desc>, chains: Chains, own: map<nat, nat>, info: seq<Option<nat>>,
              busy: set<nat>)
    requires DescsOk(free, desc, chains, own) && BufsOk(chains, info, busy)
    ensures |free| == |desc| == |info| == NUM
  {
  }

  lemma SubmitBufs(chains: Chains, info: seq<Option<nat>>, busy: set<nat>, h: nat, c: Chain)
    requires BufsOk(chains, info, busy) && h !in chains && h < NUM
    requires c.stage != Seen && c.req.buf !in busy && forall g | g in chains :: chains[g].req.buf != c.req.buf
    ensures BufsOk(chains[h := c], info[h := Some(c.req.buf)], busy + {c.req.buf})
  {
  }

  /** What submitting a request keeps. */
  lemma Offered(free: seq<bool>, desc: seq<Desc>, chains: Chains, own: map<nat, nat>, info: seq<Option<nat>>,
                busy: set<nat>, avail: Ring, queue: seq<nat>, used: Ring, pend: seq<nat>, h: nat, c: Chain,
                free': seq<bool>, desc': seq<Desc>)
    requires DescsOk(free, desc, chains, own) && BufsOk(chains, info, busy)
    requires RingOk(chains, avail, queue, Queued) && RingOk(chains, used, pend, Used)
    requires |free| == |desc| == NUM && h < c.second < c.third < NUM && free[h] && free[c.second] && free[c.third]
    requires free' == free[h := false][c.second := false][c.third := false]
    requires desc' == desc[h := First(c.req, c.second)][c.second := Second(c.req, c.third)][c.third := Third(h)]
    requires c.stage == Queued && c.req.buf !in busy && forall g | g in chains :: chains[g].req.buf != c.req.buf
    ensures h !in chains && DescsOk(free', desc', chains[h := c], own[h := h][c.second := h][c.third := h])
    ensures |info| == |avail.slots| == NUM && BufsOk(chains[h := c], info[h := Some(c.req.buf)], busy + {c.req.buf})
    ensures RingOk(chains[h := c], avail.Put(h), queue + [h], Queued) && RingOk(chains[h := c], used, pend, Used)
  {
    hide DescsOk, BufsOk, RingOk;
    Sizes(free, desc, chains, own, info, busy);
    PendingExact(free, desc, chains, own, avail, queue, Queued);
    RingFacts(chains, avail, queue, Queued);
    AddChain(free, desc, chains, own, h, c, free', desc');
    SubmitBufs(chains, info, busy, h, c);
    RingAppend(chains, avail, queue, Queued, h, c);
    RingFrame(chains, used, pend, Used, h, c);
  }

  lemma FinishBufs(chains: Chains, info: seq<Option<nat>>, busy: set<nat>, h: nat)
    requires BufsOk(chains, info, busy) && h in chains && h < NUM && chains[h].req.buf !in busy
    ensures |info| == NUM && chains[h].stage == Seen && BufsOk(chains - {h}, info[h := None], busy)
  {
  }

  lemma RingFacts(chains: Chains, ring: Ring, pend: seq<nat>, stage: Stage)
    requires RingOk(chains, ring, pend, stage)
    ensures |ring.slots| == NUM && ring.first < NUM && ring.id < WRAP16
  {
  }

  lemma HeadInRange(free: seq<bool>, desc: seq<Desc>, chains: Chains, own: map<nat, nat>, h: nat)
    requires DescsOk(free, desc, chains, own) && h in chains
    ensures |free| == |desc| == NUM && h < NUM && ChainOk(free, desc, own, h, chains[h])
  {
    assert ChainOk(free, desc, own, h, chains[h]);
  }
}
