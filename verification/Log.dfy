/** The logging layer of kernel/log.c as one object: the in-memory header, the admission
    counters, and the buffers and disk it works through.  Its loops emit exactly the block
    writes whose crash behaviour is the subject of module LogFormat. */
module LogLayer {
  import opened Prelude
  import opened Blocks
  import opened LogFormat

  datatype Outcome = Done | Panic(message: string)

  /** log_write records each block once: a block already listed is absorbed. */
  function Absorb(lh: seq<nat>, b: nat): (r: seq<nat>)
    ensures Distinct(lh) ==> Distinct(r)
    ensures forall x :: x in r <==> x in lh || x == b
    ensures lh <= r
  {
    if b in lh then lh else lh + [b]
  }

  function SlotWrites(l: Layout, data: seq<Block>, k: nat): (ws: seq<Write>)
    requires k <= |data|
  {
    seq(k, i requires 0 <= i < k => Write(l.start + 1 + i, data[i]))
  }

  function HomeWrites(lh: seq<nat>, data: seq<Block>, k: nat): (ws: seq<Write>)
    requires k <= |lh| == |data|
  {
    seq(k, i requires 0 <= i < k => Write(lh[i], data[i]))
  }

  /** The data blocks of the log area. */
  function LogData(l: Layout, d: Disk, n: nat): (data: seq<Block>)
    requires l.start + n < |d|
  {
    seq(n, i requires 0 <= i < n => d[l.start + 1 + i])
  }

  method EncodeHeader(h: Block, lh: seq<nat>) returns (hb: Block)
    requires |lh| <= LOGSIZE
    requires forall i | 0 <= i < |lh| :: lh[i] < 0x1_0000_0000
    ensures hb == WriteHeader(h, lh) && Word(hb, 0) == |lh|
    ensures forall i | 0 <= i < |lh| :: Word(hb, i + 1) == lh[i]
    ensures forall j: nat | |lh| < j < WORDS :: Word(hb, j) == Word(h, j)
  {
    hide Word, SetWord;
    hb := SetWord(h, 0, |lh|);
    var i := 0;
    while i < |lh|
      invariant 0 <= i <= |lh|
      invariant hb == PutNumbers(SetWord(h, 0, |lh|), lh, i)
    {
      hb := SetWord(hb, i + 1, lh[i]);
      i := i + 1;
    }
  }

  method DecodeHeader(h: Block) returns (lh: seq<nat>)
    requires CountFits(h)
    ensures lh == ReadHeader(h)
  {
    lh := [];
    var i := 0;
    while i < Word(h, 0)
      invariant 0 <= i <= Word(h, 0)
      invariant lh == ReadHeader(h)[..i]
    {
      lh := lh + [Word(h, i + 1)];
      i := i + 1;
    }
  }

  /** The layer below: valid buffers over a disk, and every block write since boot. */
  datatype Store = Store(disk: Disk, cache: map<nat, Block>, writes: seq<Write>) {
    /** What bread returns for block `b`. */
    function View(b: nat): (r: Block)
      requires b < |disk|
    {
      if b in cache then cache[b] else disk[b]
    }

    /** bread leaves a valid buffer behind. */
    function Load(b: nat): (r: Store)
      requires b < |disk|
      ensures r.disk == disk && forall x: nat | x < |disk| :: r.View(x) == View(x)
    {
      this.(cache := cache[b := View(b)])
    }

    /** bwrite of a buffer for block `b` that holds `data`. */
    function Put(b: nat, data: Block): (r: Store)
      requires b < |disk|
      ensures |r.disk| == |disk|
      ensures forall x: nat | x < |disk| :: r.View(x) == if x == b then data else View(x)
    {
      Store(disk[b := data], cache[b := data], writes + [Write(b, data)])
    }

    /** Only buffers of the listed blocks may differ from the disk. */
    ghost predicate Coherent(lh: seq<nat>) {
      forall b | b in cache :: b < |disk| && (b in lh || cache[b] == disk[b])
    }

    lemma StaysCoherent(lh: seq<nat>, a: nat, b: nat, c: nat, data: Block)
      requires Coherent(lh) && a < |disk| && b < |disk| && c < |disk|
      ensures Load(a).Load(b).Put(c, data).Coherent(lh)
    {
    }

    /** The contents of the listed blocks. */
    function Contents(lh: seq<nat>): (data: seq<Block>)
      requires forall i | 0 <= i < |lh| :: lh[i] < |disk|
    {
      seq(|lh|, i requires 0 <= i < |lh| => View(lh[i]))
    }
  }

  /** What write_log has done to store `s` after `tail` trips round its loop. */
  ghost predicate LogCopied(l: Layout, s: Store, t: Store, lh: seq<nat>, data: seq<Block>, tail: nat) {
    && |t.disk| == |s.disk| && Fits(l, s.disk) && Loggable(l, lh) && tail <= |lh| == |data|
    && t.writes == s.writes + SlotWrites(l, data, tail)
    && (forall b: nat | b < |s.disk| ::
          t.disk[b] == CommitAt(l, s.disk, lh, data, s.disk[l.start], s.disk[l.start], tail, b))
    && (forall i | 0 <= i < |lh| :: t.View(lh[i]) == data[i])
  }

  lemma SlotPut(l: Layout, d: Disk, lh: seq<nat>, data: seq<Block>, h: Block, tail: nat, e: Disk)
    requires Fits(l, d) && |e| == |d| && Loggable(l, lh) && tail < |lh| == |data|
    requires forall b: nat | b < |d| :: e[b] == CommitAt(l, d, lh, data, h, h, tail, b)
    ensures var e' := e[l.start + tail + 1 := data[tail]];
            forall b: nat | b < |d| :: e'[b] == CommitAt(l, d, lh, data, h, h, tail + 1, b)
  {
    var e' := e[l.start + tail + 1 := data[tail]];
    forall b: nat | b < |d| ensures e'[b] == CommitAt(l, d, lh, data, h, h, tail + 1, b) {
      CommitStep(l, d, lh, data, h, h, tail, b);
    }
  }

  lemma LogCopyStart(l: Layout, s: Store, lh: seq<nat>)
    requires Fits(l, s.disk) && Loggable(l, lh)
    ensures LogCopied(l, s, s, lh, s.Contents(lh), 0)
  {
  }

  lemma LogCopyStep(l: Layout, s: Store, t: Store, lh: seq<nat>, data: seq<Block>, tail: nat)
    requires LogCopied(l, s, t, lh, data, tail) && tail < |lh|
    ensures var to := l.start + tail + 1;
            LogCopied(l, s, t.Load(to).Load(lh[tail]).Put(to, t.View(lh[tail])), lh, data, tail + 1)
  {
    var to := l.start + tail + 1;
    assert SlotWrites(l, data, tail + 1) == SlotWrites(l, data, tail) + [Write(to, data[tail])];
    SlotPut(l, s.disk, lh, data, s.disk[l.start], tail, t.disk);
  }

  /** What install_trans has done to store `s` after `tail` trips round its loop. */
  ghost predicate Installed(l: Layout, s: Store, t: Store, lh: seq<nat>, tail: nat) {
    && |t.disk| == |s.disk| && Fits(l, s.disk) && Loggable(l, lh) && tail <= |lh|
    && t.writes == s.writes + HomeWrites(lh, LogData(l, s.disk, |lh|), tail)
    && (forall b: nat | b < |s.disk| :: t.disk[b] == RecoveryAt(l, s.disk, lh, s.disk[l.start], tail, b))
    && (forall i | 0 <= i < tail :: t.View(lh[i]) == t.disk[lh[i]])
  }

  lemma HomePut(l: Layout, d: Disk, lh: seq<nat>, h: Block, tail: nat, e: Disk)
    requires Fits(l, d) && |e| == |d| && Loggable(l, lh) && tail < |lh|
    requires forall b: nat | b < |d| :: e[b] == RecoveryAt(l, d, lh, h, tail, b)
    ensures var e' := e[lh[tail] := d[l.start + tail + 1]];
            forall b: nat | b < |d| :: e'[b] == RecoveryAt(l, d, lh, h, tail + 1, b)
  {
    var e' := e[lh[tail] := d[l.start + tail + 1]];
    forall b: nat | b < |d| ensures e'[b] == RecoveryAt(l, d, lh, h, tail + 1, b) {
      RecoveryStep(l, d, lh, h, tail, b);
    }
  }

  lemma InstallStart(l: Layout, s: Store, lh: seq<nat>)
    requires Fits(l, s.disk) && Loggable(l, lh)
    ensures Installed(l, s, s, lh, 0)
  {
  }

  lemma InstallStep(l: Layout, s: Store, t: Store, lh: seq<nat>, tail: nat, data: Block)
    requires Installed(l, s, t, lh, tail) && tail < |lh| && data == s.disk[l.start + tail + 1]
    ensures Installed(l, s, t.Load(l.start + tail + 1).Load(lh[tail]).Put(lh[tail], data), lh, tail + 1)
  {
    var ds := LogData(l, s.disk, |lh|);
    assert HomeWrites(lh, ds, tail + 1) == HomeWrites(lh, ds, tail) + [Write(lh[tail], data)];
    HomePut(l, s.disk, lh, s.disk[l.start], tail, t.disk);
  }

  /** A log block keeps its contents while the home blocks are installed. */
  lemma SlotKept(l: Layout, s: Store, t: Store, lh: seq<nat>, tail: nat)
    requires Installed(l, s, t, lh, tail) && tail < |lh| && t.Coherent(lh)
    ensures t.View(l.start + tail + 1) == s.disk[l.start + tail + 1]
  {
    var b := l.start + tail + 1;
    assert l.InLog(b);
    assert t.disk[b] == RecoveryAt(l, s.disk, lh, s.disk[l.start], tail, b);
  }

  /** Once every listed block is installed, no buffer differs from the disk. */
  lemma AllInstalled(l: Layout, s: Store, t: Store, lh: seq<nat>)
    requires Installed(l, s, t, lh, |lh|) && t.Coherent(lh)
    ensures t.Coherent([])
  {
    forall b | b in t.cache ensures t.cache[b] == t.disk[b] {
      if b in lh {
        var i :| 0 <= i < |lh| && lh[i] == b;
        assert t.View(lh[i]) == t.disk[lh[i]];
      }
    }
  }

  /** Block `b` through the four phases of commit. */
  lemma CommitPhases(l: Layout, d: Disk, lh: seq<nat>, data: seq<Block>, h: Block, h0: Block, d1: Disk, d2: Disk,
                     d3: Disk, b: nat)
    requires Fits(l, d) && Loggable(l, lh) && |lh| == |data| && |d1| == |d2| == |d3| == |d| && b < |d|
    requires forall b: nat | b < |d| :: d1[b] == CommitAt(l, d, lh, data, d[l.start], d[l.start], |lh|, b)
    requires d2 == d1[l.start := h]
    requires forall b: nat | b < |d| :: d3[b] == RecoveryAt(l, d2, lh, d2[l.start], |lh|, b)
    ensures d3[l.start := h0][b] == CommitAt(l, d, lh, data, h, h0, 2 * |lh| + 2, b)
    ensures d3[l.start] == h && d1[l.start] == d[l.start]
  {
    var i := IndexOf(lh, b);
    if i < |lh| {
      assert d1[l.start + 1 + i] == data[i];
    }
  }

  lemma EmittedInOrder(l: Layout, d: Disk, lh: seq<nat>, data: seq<Block>, h: Block, h0: Block, d1: Disk, d2: Disk)
    requires Fits(l, d) && Loggable(l, lh) && |lh| == |data| > 0 && |d1| == |d2| == |d|
    requires forall b: nat | b < |d| :: d1[b] == CommitAt(l, d, lh, data, d[l.start], d[l.start], |lh|, b)
    requires d2 == d1[l.start := h]
    ensures SlotWrites(l, data, |lh|) + [Write(l.start, h)] + HomeWrites(lh, LogData(l, d2, |lh|), |lh|)
            + [Write(l.start, h0)] == CommitWrites(l, lh, data, h, h0)
  {
    assert LogData(l, d2, |lh|) == data by {
      forall i | 0 <= i < |lh| ensures d2[l.start + 1 + i] == data[i] {
        assert d1[l.start + 1 + i] == CommitAt(l, d, lh, data, d[l.start], d[l.start], |lh|, l.start + 1 + i);
      }
    }
  }

  lemma CommitApplied(l: Layout, d: Disk, lh: seq<nat>, data: seq<Block>, h: Block, h0: Block, d4: Disk)
    requires Fits(l, d) && Loggable(l, lh) && |lh| == |data| > 0 && |d4| == |d|
    requires forall b: nat | b < |d| :: d4[b] == CommitAt(l, d, lh, data, h, h0, 2 * |lh| + 2, b)
    ensures InRange(d, CommitWrites(l, lh, data, h, h0))
    ensures d4 == Apply(d, CommitWrites(l, lh, data, h, h0))
  {
    CommitPrefix(l, d, lh, data, h, h0, 0, 0);
    var ws := CommitWrites(l, lh, data, h, h0);
    assert ws[..2 * |lh| + 2] == ws;
    var r := Apply(d, ws);
    forall b: nat | b < |d| ensures r[b] == d4[b] {
      CommitPrefix(l, d, lh, data, h, h0, 2 * |lh| + 2, b);
    }
  }

  lemma CommitEmits(l: Layout, d: Disk, lh: seq<nat>, data: seq<Block>, h: Block, h0: Block, d1: Disk, d2: Disk,
                    d3: Disk, d4: Disk)
    requires Fits(l, d) && Loggable(l, lh) && |lh| == |data| > 0 && |d1| == |d2| == |d3| == |d4| == |d|
    requires forall b: nat | b < |d| :: d1[b] == CommitAt(l, d, lh, data, d[l.start], d[l.start], |lh|, b)
    requires d2 == d1[l.start := h]
    requires forall b: nat | b < |d| :: d3[b] == RecoveryAt(l, d2, lh, d2[l.start], |lh|, b)
    requires d4 == d3[l.start := h0]
    ensures InRange(d, CommitWrites(l, lh, data, h, h0))
    ensures d4 == Apply(d, CommitWrites(l, lh, data, h, h0))
  {
    forall b: nat | b < |d| ensures d4[b] == CommitAt(l, d, lh, data, h, h0, 2 * |lh| + 2, b) {
      CommitPhases(l, d, lh, data, h, h0, d1, d2, d3, b);
    }
    CommitApplied(l, d, lh, data, h, h0, d4);
  }

  lemma CommitTrace(l: Layout, s: Store, s1: Store, s2: Store, s3: Store, s4: Store, lh: seq<nat>, data: seq<Block>,
                    h: Block, h0: Block)
    requires lh != [] && LogCopied(l, s, s1, lh, data, |lh|)
    requires s2 == s1.Load(l.start).Put(l.start, h)
    requires Installed(l, s2, s3, lh, |lh|)
    requires s4 == s3.Load(l.start).Put(l.start, h0)
    ensures s1.disk[l.start] == s.disk[l.start] && s3.disk[l.start] == h
    ensures InRange(s.disk, CommitWrites(l, lh, data, h, h0))
    ensures s4.disk == Apply(s.disk, CommitWrites(l, lh, data, h, h0))
    ensures s4.writes == s.writes + CommitWrites(l, lh, data, h, h0)
  {
    hide CommitAt, RecoveryAt, CommitWrites, Apply, Distinct, LogData;
    CommitPhases(l, s.disk, lh, data, h, h0, s1.disk, s2.disk, s3.disk, l.start);
    EmittedInOrder(l, s.disk, lh, data, h, h0, s1.disk, s2.disk);
    CommitEmits(l, s.disk, lh, data, h, h0, s1.disk, s2.disk, s3.disk, s4.disk);
  }

  /** The four phases of commit emit exactly the writes of LogFormat.Commit. */
  lemma CommitDone(l: Layout, s: Store, s1: Store, s2: Store, s3: Store, s4: Store, lh: seq<nat>, data: seq<Block>)
    requires lh != [] && LogCopied(l, s, s1, lh, data, |lh|)
    requires s2 == s1.Load(l.start).Put(l.start, WriteHeader(s1.disk[l.start], lh))
    requires Installed(l, s2, s3, lh, |lh|)
    requires s4 == s3.Load(l.start).Put(l.start, WriteHeader(s3.disk[l.start], []))
    ensures s4.disk == Apply(s.disk, LogFormat.Commit(l, s.disk, lh, data))
    ensures s4.writes == s.writes + LogFormat.Commit(l, s.disk, lh, data)
  {
    CommitTrace(l, s, s1, s2, s3, s4, lh, data, WriteHeader(s1.disk[l.start], lh), WriteHeader(s3.disk[l.start], []));
  }

  lemma RecoveryApplied(l: Layout, d: Disk, lh: seq<nat>, h0: Block, d2: Disk)
    requires Fits(l, d) && Loggable(l, lh) && |d2| == |d|
    requires forall b: nat | b < |d| :: d2[b] == RecoveryAt(l, d, lh, h0, |lh| + 1, b)
    ensures d2 == Apply(d, RecoveryWrites(l, d, lh, h0))
  {
    hide RecoveryAt, Distinct;
    var ws := RecoveryWrites(l, d, lh, h0);
    assert ws[..|lh| + 1] == ws;
    var r := Apply(d, ws);
    forall b: nat | b < |d| ensures r[b] == d2[b] {
      RecoveryPrefix(l, d, lh, h0, |lh| + 1, b);
    }
  }

  lemma RecoveryEmits(l: Layout, d: Disk, lh: seq<nat>, h0: Block, d1: Disk, d2: Disk)
    requires Fits(l, d) && Loggable(l, lh) && |d1| == |d2| == |d|
    requires forall b: nat | b < |d| :: d1[b] == RecoveryAt(l, d, lh, d[l.start], |lh|, b)
    requires d2 == d1[l.start := h0]
    ensures d2 == Apply(d, RecoveryWrites(l, d, lh, h0)) && d1[l.start] == d[l.start]
    ensures HomeWrites(lh, LogData(l, d, |lh|), |lh|) + [Write(l.start, h0)] == RecoveryWrites(l, d, lh, h0)
  {
    assert forall b: nat | b < |d| :: d2[b] == RecoveryAt(l, d, lh, h0, |lh| + 1, b) by {
      forall b: nat | b < |d| ensures d2[b] == RecoveryAt(l, d, lh, h0, |lh| + 1, b) {
        RecoveryStep(l, d, lh, h0, |lh|, b);
      }
    }
    assert d1[l.start] == d[l.start];
    hide RecoveryAt, Apply, Distinct;
    RecoveryApplied(l, d, lh, h0, d2);
  }

  lemma RecoveryDone(l: Layout, s: Store, s1: Store, s2: Store, lh: seq<nat>)
    requires WellFormed(l, s.disk) && lh == ReadHeader(s.disk[l.start])
    requires Installed(l, s, s1, lh, |lh|)
    requires s2 == s1.Load(l.start).Put(l.start, WriteHeader(s1.disk[l.start], []))
    ensures s2.disk == Apply(s.disk, Recovery(l, s.disk)) && s2.writes == s.writes + Recovery(l, s.disk)
  {
    RecoveryEmits(l, s.disk, lh, WriteHeader(s1.disk[l.start], []), s1.disk, s2.disk);
  }

  /** commit leaves in each home block what a read through the buffers showed before. */
  lemma CommitShows(l: Layout, s: Store, lh: seq<nat>, b: nat)
    requires Fits(l, s.disk) && Loggable(l, lh) && s.Coherent(lh) && Home(l, b)
    ensures Apply(s.disk, LogFormat.Commit(l, s.disk, lh, s.Contents(lh)))[b] == s.View(b)
  {
    hide Word, SetWord, PutNumbers;
    if lh != [] {
      var data, h := s.Contents(lh), WriteHeader(s.disk[l.start], lh);
      var ws := CommitWrites(l, lh, data, h, WriteHeader(h, []));
      CommitPrefix(l, s.disk, lh, data, h, WriteHeader(h, []), 2 * |lh| + 2, b);
      assert ws[..2 * |lh| + 2] == ws;
    }
  }

  lemma AllShows(l: Layout, s: Store, lh: seq<nat>)
    requires Fits(l, s.disk) && Loggable(l, lh) && s.Coherent(lh)
    ensures forall b: nat | Home(l, b) ::
              Apply(s.disk, LogFormat.Commit(l, s.disk, lh, s.Contents(lh)))[b] == s.View(b)
  {
    forall b: nat | Home(l, b)
      ensures Apply(s.disk, LogFormat.Commit(l, s.disk, lh, s.Contents(lh)))[b] == s.View(b)
    {
      CommitShows(l, s, lh, b);
    }
  }

  lemma ApplyNone(d: Disk)
    ensures Apply(d, []) == d
  {
  }

  /** recovery leaves in each home block the log's copy if there is one, and an empty header. */
  lemma RecoveryShows(l: Layout, d: Disk)
    requires WellFormed(l, d)
    ensures var list, r := ReadHeader(d[l.start]), Apply(d, Recovery(l, d));
            && (forall i | 0 <= i < |list| :: r[list[i]] == d[l.start + 1 + i])
            && (forall b: nat | Home(l, b) && b !in list :: r[b] == d[b])
            && ReadHeader(r[l.start]) == []
  {
    hide ReadHeader, RecoveryWrites;
    var ws := Recovery(l, d);
    RecoveryCrash(l, d, |ws|);
    assert ws[..|ws|] == ws;
    var list := ReadHeader(d[l.start]);
    forall i | 0 <= i < |list| ensures Durable(l, d)[list[i]] == d[l.start + 1 + i] {
      assert Home(l, list[i]);
    }
  }

  /** The references bpin and bunpin have left on the buffer of block `b`. */
  function Pins(pins: map<nat, nat>, b: nat): (n: nat) {
    if b in pins then pins[b] else 0
  }

  /** bunpin took one reference from each of the first `n` listed buffers. */
  ghost predicate Unpinned(was: map<nat, nat>, now: map<nat, nat>, lh: seq<nat>, n: nat)
    requires n <= |lh|
  {
    forall b: nat :: Pins(now, b) == if b in lh[..n] then Dec(Pins(was, b)) else Pins(was, b)
  }

  /** Each listed block's buffer is pinned once, and no other. */
  ghost predicate PinnedOnce(pins: map<nat, nat>, lh: seq<nat>) {
    forall b: nat :: Pins(pins, b) == if b in lh then 1 else 0
  }

  lemma UnpinNone(pins: map<nat, nat>, lh: seq<nat>)
    ensures Unpinned(pins, pins, lh, 0)
  {
  }

  lemma UnpinNext(was: map<nat, nat>, now: map<nat, nat>, lh: seq<nat>, n: nat)
    requires Distinct(lh) && n < |lh| && Unpinned(was, now, lh, n)
    ensures Unpinned(was, now[lh[n] := Dec(Pins(now, lh[n]))], lh, n + 1)
  {
    assert lh[..n + 1] == lh[..n] + [lh[n]];
  }

  /** Installing a transaction takes back exactly the pins its log_writes left. */
  lemma UnpinnedAll(was: map<nat, nat>, now: map<nat, nat>, lh: seq<nat>)
    requires Unpinned(was, now, lh, |lh|)
    ensures PinnedOnce(was, lh) ==> PinnedOnce(now, [])
    ensures PinnedOnce(was, []) ==> (PinnedOnce(now, []) <==> lh == [])
  {
    assert lh[..|lh|] == lh;
    assert lh != [] ==> lh[0] in lh && Pins(now, lh[0]) == Dec(Pins(was, lh[0]));
  }

  class Log {
    const l: Layout
    /** log.lh: the block numbers of the transaction being built, `n` of them. */
    var lh: seq<nat>
    var outstanding: int
    var committing: bool
    var store: Store
    /** What is left of the buffers' reference counts between calls. */
    var pins: map<nat, nat>

    ghost predicate Valid()
      reads this
    {
      Fits(l, store.disk) && Loggable(l, lh) && store.Coherent(lh)
    }

    constructor (l: Layout, d: Disk)
      requires Fits(l, d)
      ensures Valid() && this.l == l && store == Store(d, map[], [])
      ensures lh == [] && outstanding == 0 && !committing && pins == map[]
    {
      this.l := l;
      lh, outstanding, committing := [], 0, false;
      store, pins := Store(d, map[], []), map[];
    }

    /** begin_op, one trip round its loop: admit the operation, or tell it to sleep. */
    method BeginOp() returns (admitted: bool)
      modifies this`outstanding
      ensures admitted <==> !committing && |lh| + (old(outstanding) + 1) * MAXOPBLOCKS <= LOGSIZE
      ensures outstanding == old(outstanding) + if admitted then 1 else 0
    {
      if committing || |lh| + (outstanding + 1) * MAXOPBLOCKS > LOGSIZE {
        admitted := false;
      } else {
        outstanding := outstanding + 1;
        admitted := true;
      }
    }

    /** log_write of a buffer for block `b` that now holds `data`. */
    method LogWrite(b: nat, data: Block) returns (r: Outcome)
      requires Valid() && Home(l, b)
      modifies this`lh, this`store, this`pins
      ensures r.Panic? <==> old(|lh|) >= LOGSIZE || old(|lh|) >= l.size - 1 || outstanding < 1
      ensures r.Panic? ==> lh == old(lh) && store == old(store) && pins == old(pins)
      ensures r.Done? ==> Valid() && lh == Absorb(old(lh), b)
      ensures r.Done? ==> store == old(store).(cache := old(store.cache)[b := data])
      ensures r.Done? ==> forall x: nat ::
                Pins(pins, x) == if x == b && b !in old(lh) then Inc(Pins(old(pins), x)) else Pins(old(pins), x)
      ensures old(PinnedOnce(pins, lh)) ==> PinnedOnce(pins, lh)
    {
      if |lh| >= LOGSIZE || |lh| >= l.size - 1 {
        return Panic("too big a transaction");
      }
      if outstanding < 1 {
        return Panic("log_write outside of trans");
      }
      var i := 0;
      while i < |lh| && lh[i] != b
        invariant 0 <= i <= |lh|
        invariant b !in lh[..i]
      {
        i := i + 1;
      }
      if i == |lh| {
        assert lh[..i] == lh;
        pins := pins[b := Inc(Pins(pins, b))];
        lh := lh + [b];
      } else {
        assert lh[i := b] == lh;
        lh := lh[i := b];
      }
      store := store.(cache := store.cache[b := data]);
      r := Done;
    }

    method WriteLog()
      requires Valid()
      modifies this`store
      ensures Valid() && LogCopied(l, old(store), store, lh, old(store.Contents(lh)), |lh|)
    {
      hide CommitAt, Distinct, SlotWrites;
      ghost var s, data := store, store.Contents(lh);
      LogCopyStart(l, s, lh);
      var t := store;
      for tail := 0 to |lh|
        invariant t.Coherent(lh) && LogCopied(l, s, t, lh, data, tail)
      {
        var to, from := l.start + tail + 1, lh[tail];
        t.StaysCoherent(lh, to, from, to, t.View(from));
        LogCopyStep(l, s, t, lh, data, tail);
        t := t.Load(to).Load(from).Put(to, t.View(from));
      }
      store := t;
    }

    method InstallTrans()
      requires Valid()
      modifies this`store, this`pins
      ensures Valid() && Installed(l, old(store), store, lh, |lh|) && Unpinned(old(pins), pins, lh, |lh|)
    {
      hide RecoveryAt, Distinct, HomeWrites, Unpinned;
      ghost var s := store;
      InstallStart(l, s, lh);
      UnpinNone(pins, lh);
      var t := store;
      for tail := 0 to |lh|
        invariant t.Coherent(lh) && Installed(l, s, t, lh, tail) && Unpinned(old(pins), pins, lh, tail)
      {
        var lbuf, dbuf := l.start + tail + 1, lh[tail];
        SlotKept(l, s, t, lh, tail);
        t.StaysCoherent(lh, lbuf, dbuf, dbuf, t.View(lbuf));
        InstallStep(l, s, t, lh, tail, t.View(lbuf));
        t := t.Load(lbuf).Load(dbuf).Put(dbuf, t.View(lbuf));
        UnpinNext(old(pins), pins, lh, tail);
        pins := pins[dbuf := Dec(Pins(pins, dbuf))];
      }
      store := t;
    }

    method WriteHead()
      requires Valid()
      modifies this`store
      ensures Valid()
      ensures store == old(store).Load(l.start).Put(l.start, WriteHeader(old(store.disk)[l.start], lh))
    {
      var hb := store.View(l.start);
      store := store.Load(l.start);
      hb := EncodeHeader(hb, lh);
      store := store.Put(l.start, hb);
    }

    method ReadHead()
      requires WellFormed(l, store.disk) && store.Coherent([])
      modifies this`lh, this`store
      ensures store == old(store).Load(l.start) && lh == ReadHeader(store.disk[l.start])
    {
      var hb := store.View(l.start);
      store := store.Load(l.start);
      lh := DecodeHeader(hb);
    }

    /** commit emits exactly the writes of LogFormat.Commit, and leaves an empty log, buffers
        that agree with the disk, and the listed buffers with one pin less. */
    method Commit()
      requires Valid()
      modifies this`lh, this`store, this`pins
      ensures Valid() && lh == []
      ensures Unpinned(old(pins), pins, old(lh), old(|lh|)) && (old(PinnedOnce(pins, lh)) ==> PinnedOnce(pins, lh))
      ensures var ws := LogFormat.Commit(l, old(store.disk), old(lh), old(store.Contents(lh)));
              store.disk == Apply(old(store.disk), ws) && store.writes == old(store.writes) + ws
      ensures forall b: nat | Home(l, b) :: store.disk[b] == old(store).View(b)
    {
      hide CommitWrites, Apply, SetWord, PutNumbers, Word;
      ApplyNone(store.disk);
      AllShows(l, store, lh);
      if |lh| > 0 {
        WriteLog();
        ghost var s1 := store;
        WriteHead();
        ghost var s2 := store;
        InstallTrans();
        AllInstalled(l, s2, store, lh);
        UnpinnedAll(old(pins), pins, lh);
        ghost var s3 := store;
        lh := [];
        WriteHead();
        CommitDone(l, old(store), s1, s2, s3, store, old(lh), old(store.Contents(lh)));
      }
    }

    /** end_op: the last outstanding operation commits. */
    method EndOp() returns (r: Outcome)
      requires Valid()
      modifies this
      ensures r.Panic? <==> old(committing)
      ensures outstanding == old(outstanding) - 1
      ensures r.Done? ==> Valid() && !committing
      ensures old(PinnedOnce(pins, lh)) ==> PinnedOnce(pins, lh)
      ensures r.Done? && outstanding != 0 ==> lh == old(lh) && store == old(store) && pins == old(pins)
      ensures r.Done? && outstanding == 0 ==>
                var ws := LogFormat.Commit(l, old(store.disk), old(lh), old(store.Contents(lh)));
                && lh == [] && Unpinned(old(pins), pins, old(lh), old(|lh|))
                && store.disk == Apply(old(store.disk), ws) && store.writes == old(store.writes) + ws
      ensures r.Done? && outstanding == 0 ==>
                |store.disk| == l.total && forall b: nat | Home(l, b) :: store.disk[b] == old(store).View(b)
    {
      outstanding := outstanding - 1;
      if committing {
        return Panic("log.committing");
      }
      if outstanding == 0 {
        committing := true;
        Commit();
        committing := false;
      }
      r := Done;
    }

    /** recover_from_log, run at boot before any buffer is modified, emits exactly the
        writes of LogFormat.Recovery.  It unpins what no log_write of this boot has pinned. */
    method RecoverFromLog()
      requires WellFormed(l, store.disk) && store.Coherent([])
      modifies this`lh, this`store, this`pins
      ensures var list := ReadHeader(old(store.disk)[l.start]);
              && Unpinned(old(pins), pins, list, |list|)
              && (old(PinnedOnce(pins, [])) ==> (PinnedOnce(pins, []) <==> list == []))
      ensures Valid() && lh == []
      ensures store.disk == Apply(old(store.disk), Recovery(l, old(store.disk)))
      ensures store.writes == old(store.writes) + Recovery(l, old(store.disk))
      ensures var list := ReadHeader(old(store.disk)[l.start]);
              && (forall i | 0 <= i < |list| :: store.disk[list[i]] == old(store.disk)[l.start + 1 + i])
              && (forall b: nat | Home(l, b) && b !in list :: store.disk[b] == old(store.disk)[b])
              && ReadHeader(store.disk[l.start]) == []
    {
      RecoveryShows(l, store.disk);
      ReadHead();
      ghost var s1 := store;
      InstallTrans();
      AllInstalled(l, s1, store, lh);
      UnpinnedAll(old(pins), pins, lh);
      ghost var s2, list := store, lh;
      lh := [];
      WriteHead();
      RecoveryDone(l, s1, s2, store, list);
    }
  }
}
