/** The on-disk redo log and what a crash leaves of it.

    The log area is `size` blocks from `start`: a header block holding the block
    numbers of a transaction, then one block of data per number.  `Durable` says
    what the home blocks will hold once a recovery runs to its end; the lemmas
    show which of a transaction's block writes change it. */
module LogFormat {
  import opened Prelude
  import opened Blocks

  const LOGSIZE := 30

  /** The superblock's log area on a disk of `total` blocks. */
  datatype Layout = Layout(start: nat, size: nat, total: nat) {
    predicate InLog(b: nat) { start <= b < start + size }
  }

  predicate Fits(l: Layout, d: Disk) {
    2 <= l.size && l.start + l.size <= l.total == |d| < 0x1_0000_0000
  }

  /** A block outside the log area. */
  predicate Home(l: Layout, b: nat) {
    b < l.total && !l.InLog(b)
  }

  /** A list of block numbers that a transaction may hold. */
  predicate Loggable(l: Layout, lh: seq<nat>) {
    && |lh| <= LOGSIZE
    && |lh| < l.size
    && Distinct(lh)
    && forall i | 0 <= i < |lh| :: Home(l, lh[i])
  }

  /** The count is within the in-memory array that read_head fills. */
  predicate CountFits(h: Block) {
    Word(h, 0) <= LOGSIZE
  }

  /** read_head: the count, then that many block numbers. */
  function ReadHeader(h: Block): (lh: seq<nat>) {
    var n := Word(h, 0);
    if n <= LOGSIZE then seq(n, i requires 0 <= i < n => Word(h, i + 1)) else []
  }

  /** The header on the disk: four bytes of count and four bytes for each number. */
  lemma HeaderLayout(h: Block)
    requires CountFits(h)
    ensures |ReadHeader(h)| == LittleEndian(h[..4])
    ensures forall i | 0 <= i < |ReadHeader(h)| :: ReadHeader(h)[i] == LittleEndian(h[4 * i + 4..4 * i + 8])
  {
    hide Word, LittleEndian;
    WordIsLittleEndian(h, 0);
    assert h[0..4] == h[..4];
    forall i | 0 <= i < |ReadHeader(h)| ensures ReadHeader(h)[i] == LittleEndian(h[4 * i + 4..4 * i + 8]) {
      WordIsLittleEndian(h, i + 1);
    }
  }

  /** write_head stores the count and the first `|lh|` numbers; words beyond keep
      whatever the header block held. */
  function WriteHeader(h: Block, lh: seq<nat>): (r: Block)
    requires |lh| <= LOGSIZE
    requires forall i | 0 <= i < |lh| :: lh[i] < 0x1_0000_0000
  {
    PutNumbers(SetWord(h, 0, |lh|), lh, |lh|)
  }

  function PutNumbers(h: Block, lh: seq<nat>, k: nat): (r: Block)
    requires k <= |lh| <= LOGSIZE
    requires forall i | 0 <= i < |lh| :: lh[i] < 0x1_0000_0000
    ensures Word(r, 0) == Word(h, 0)
    ensures forall i | 0 <= i < k :: Word(r, i + 1) == lh[i]
    ensures forall j: nat | k < j < WORDS :: Word(r, j) == Word(h, j)
  {
    if k == 0 then h else SetWord(PutNumbers(h, lh, k - 1), k, lh[k - 1])
  }

  /** The header read back is the header written. */
  lemma HeaderRoundTrip(h: Block, lh: seq<nat>)
    requires |lh| <= LOGSIZE
    requires forall i | 0 <= i < |lh| :: lh[i] < 0x1_0000_0000
    ensures CountFits(WriteHeader(h, lh)) && ReadHeader(WriteHeader(h, lh)) == lh
  {
    hide Word, SetWord, PutNumbers;
    assert |ReadHeader(WriteHeader(h, lh))| == |lh|;
  }

  // ---------- what recovery will leave in the home blocks ----------

  /** A position of `b` in the list, or the list's length when it is not there. */
  ghost function IndexOf(lh: seq<nat>, b: nat): (i: nat)
    ensures i <= |lh|
    ensures i < |lh| ==> lh[i] == b
    ensures i == |lh| ==> forall j | 0 <= j < |lh| :: lh[j] != b
  {
    if j :| 0 <= j < |lh| && lh[j] == b then j else |lh|
  }

  /** What block `b` is worth when the log holds `lh`: the logged copy when `b` is
      listed, the home block otherwise. */
  ghost function LoggedAt(l: Layout, d: Disk, lh: seq<nat>, b: nat): (r: Block)
    requires Fits(l, d) && Loggable(l, lh) && Home(l, b)
    ensures forall i | 0 <= i < |lh| && lh[i] == b :: r == d[l.start + 1 + i]
    ensures b !in lh ==> r == d[b]
  {
    var i := IndexOf(lh, b);
    if i < |lh| then d[l.start + 1 + i] else d[b]
  }

  ghost function Logged(l: Layout, d: Disk, lh: seq<nat>): (m: map<nat, Block>)
    requires Fits(l, d) && Loggable(l, lh)
  {
    map b: nat | b < l.total && Home(l, b) :: LoggedAt(l, d, lh, b)
  }

  predicate WellFormed(l: Layout, d: Disk) {
    Fits(l, d) && CountFits(d[l.start]) && Loggable(l, ReadHeader(d[l.start]))
  }

  /** The home blocks as a completed recovery will leave them. */
  ghost function Durable(l: Layout, d: Disk): (m: map<nat, Block>)
    requires WellFormed(l, d)
  {
    Logged(l, d, ReadHeader(d[l.start]))
  }

  // ---------- the block writes of commit and of recovery ----------

  datatype Write = Write(block: nat, data: Block)

  predicate InRange(d: Disk, ws: seq<Write>) {
    forall i | 0 <= i < |ws| :: ws[i].block < |d|
  }

  function Apply(d: Disk, ws: seq<Write>): (r: Disk)
    requires InRange(d, ws)
    ensures |r| == |d|
  {
    if ws == [] then d
    else
      var last := ws[|ws| - 1];
      Apply(d, ws[..|ws| - 1])[last.block := last.data]
  }

  lemma ApplyNext(d: Disk, ws: seq<Write>, k: nat)
    requires InRange(d, ws) && k < |ws|
    ensures Apply(d, ws[..k + 1]) == Apply(d, ws[..k])[ws[k].block := ws[k].data]
  {
    assert ws[..k + 1][..k] == ws[..k];
  }

  /** Block write number `k` of commit(), for a transaction over `lh` whose blocks
      hold `data`: first the log blocks (write_log), then the header `h` listing them
      (write_head), then the home blocks (install_trans), then the empty header `h0`. */
  function CommitWrite(l: Layout, lh: seq<nat>, data: seq<Block>, h: Block, h0: Block, k: nat): (w: Write)
    requires |lh| == |data| > 0 && k < 2 * |lh| + 2
  {
    if k < |lh| then Write(l.start + 1 + k, data[k])
    else if k == |lh| then Write(l.start, h)
    else if k <= 2 * |lh| then Write(lh[k - |lh| - 1], data[k - |lh| - 1])
    else Write(l.start, h0)
  }

  function CommitWrites(l: Layout, lh: seq<nat>, data: seq<Block>, h: Block, h0: Block): (ws: seq<Write>)
    requires |lh| == |data| > 0
  {
    seq(2 * |lh| + 2, k requires 0 <= k < 2 * |lh| + 2 => CommitWrite(l, lh, data, h, h0, k))
  }

  /** Block write number `k` of recover_from_log() when the header lists `lh`: log
      blocks to their homes, then the empty header `h0`. */
  function RecoveryWrite(l: Layout, d: Disk, lh: seq<nat>, h0: Block, k: nat): (w: Write)
    requires Fits(l, d) && Loggable(l, lh) && k <= |lh|
  {
    if k < |lh| then Write(lh[k], d[l.start + 1 + k]) else Write(l.start, h0)
  }

  function RecoveryWrites(l: Layout, d: Disk, lh: seq<nat>, h0: Block): (ws: seq<Write>)
    requires Fits(l, d) && Loggable(l, lh)
    ensures InRange(d, ws)
  {
    seq(|lh| + 1, k requires 0 <= k <= |lh| => RecoveryWrite(l, d, lh, h0, k))
  }

  // ---------- the disk after a prefix of the writes, block by block ----------

  /** Block `b` after the first `k` writes of commit. */
  ghost function CommitAt(l: Layout, d: Disk, lh: seq<nat>, data: seq<Block>, h: Block, h0: Block, k: nat, b: nat):
    (r: Block)
    requires Fits(l, d) && |lh| == |data| && b < |d|
  {
    var n := |lh|;
    if b == l.start then (if k <= n then d[b] else if k <= 2 * n + 1 then h else h0)
    else if l.start < b <= l.start + n then (if b - l.start - 1 < k then data[b - l.start - 1] else d[b])
    else
      var i := IndexOf(lh, b);
      if i < n && n + 1 + i < k then data[i] else d[b]
  }

  lemma IndexOfAt(lh: seq<nat>, i: nat)
    requires i < |lh| && Distinct(lh)
    ensures IndexOf(lh, lh[i]) == i
  {
  }

  /** Each write changes its own block and no other. */
  lemma CommitStep(l: Layout, d: Disk, lh: seq<nat>, data: seq<Block>, h: Block, h0: Block, k: nat, b: nat)
    requires Fits(l, d) && Loggable(l, lh) && |lh| == |data| > 0 && k < 2 * |lh| + 2 && b < |d|
    ensures var w := CommitWrite(l, lh, data, h, h0, k);
            && w.block < |d|
            && CommitAt(l, d, lh, data, h, h0, k + 1, b) ==
               if b == w.block then w.data else CommitAt(l, d, lh, data, h, h0, k, b)
  {
    if |lh| < k <= 2 * |lh| {
      IndexOfAt(lh, k - |lh| - 1);
    }
  }

  lemma {:induction false} CommitPrefix(l: Layout, d: Disk, lh: seq<nat>, data: seq<Block>, h: Block, h0: Block,
                                        k: nat, b: nat)
    requires Fits(l, d) && Loggable(l, lh) && |lh| == |data| > 0 && k <= 2 * |lh| + 2 && b < |d|
    ensures InRange(d, CommitWrites(l, lh, data, h, h0))
    ensures Apply(d, CommitWrites(l, lh, data, h, h0)[..k])[b] == CommitAt(l, d, lh, data, h, h0, k, b)
  {
    if k > 0 {
      CommitPrefix(l, d, lh, data, h, h0, k - 1, b);
      ApplyNext(d, CommitWrites(l, lh, data, h, h0), k - 1);
      CommitStep(l, d, lh, data, h, h0, k - 1, b);
    }
  }

  /** Block `b` after the first `k` writes of recovery. */
  ghost function RecoveryAt(l: Layout, d: Disk, lh: seq<nat>, h0: Block, k: nat, b: nat): (r: Block)
    requires Fits(l, d) && |lh| < l.size && b < |d|
  {
    if b == l.start then (if k <= |lh| then d[b] else h0)
    else
      var i := IndexOf(lh, b);
      if i < |lh| && i < k then d[l.start + 1 + i] else d[b]
  }

  lemma RecoveryStep(l: Layout, d: Disk, lh: seq<nat>, h0: Block, k: nat, b: nat)
    requires Fits(l, d) && Loggable(l, lh) && k <= |lh| && b < |d|
    ensures var w := RecoveryWrite(l, d, lh, h0, k);
            && w.block < |d|
            && RecoveryAt(l, d, lh, h0, k + 1, b) == if b == w.block then w.data else RecoveryAt(l, d, lh, h0, k, b)
  {
    if k < |lh| {
      IndexOfAt(lh, k);
    }
  }

  lemma {:induction false} RecoveryPrefix(l: Layout, d: Disk, lh: seq<nat>, h0: Block, k: nat, b: nat)
    requires Fits(l, d) && Loggable(l, lh) && k <= |lh| + 1 && b < |d|
    ensures Apply(d, RecoveryWrites(l, d, lh, h0)[..k])[b] == RecoveryAt(l, d, lh, h0, k, b)
  {
    if k > 0 {
      RecoveryPrefix(l, d, lh, h0, k - 1, b);
      ApplyNext(d, RecoveryWrites(l, d, lh, h0), k - 1);
      RecoveryStep(l, d, lh, h0, k - 1, b);
    }
  }

  // ---------- crash atomicity ----------

  /** The home blocks after the transaction. */
  ghost function After(l: Layout, d: Disk, lh: seq<nat>, data: seq<Block>): (m: map<nat, Block>)
    requires Fits(l, d) && Loggable(l, lh) && |lh| == |data|
  {
    map b: nat | b < l.total && Home(l, b) ::
      var i := IndexOf(lh, b); if i < |lh| then data[i] else d[b]
  }

  /** The writes of commit with the header blocks the code computes. */
  function Commit(l: Layout, d: Disk, lh: seq<nat>, data: seq<Block>): (ws: seq<Write>)
    requires Fits(l, d) && Loggable(l, lh) && |lh| == |data|
    ensures InRange(d, ws)
  {
    if lh == [] then []
    else
      var h := WriteHeader(d[l.start], lh);
      CommitPrefix(l, d, lh, data, h, WriteHeader(h, []), 0, 0);
      CommitWrites(l, lh, data, h, WriteHeader(h, []))
  }

  /** The list the header names after the first `k` writes of commit. */
  function ListedAfter(lh: seq<nat>, k: nat): (r: seq<nat>) {
    if |lh| < k <= 2 * |lh| + 1 then lh else []
  }

  lemma LoggedAtAfterCommit(l: Layout, d: Disk, lh: seq<nat>, data: seq<Block>, h: Block, h0: Block, k: nat,
                          d': Disk, b: nat)
    requires Fits(l, d) && Loggable(l, lh) && |lh| == |data| > 0 && k <= 2 * |lh| + 2
    requires |d'| == |d| && Loggable(l, ListedAfter(lh, k)) && Home(l, b)
    requires d'[b] == CommitAt(l, d, lh, data, h, h0, k, b)
    requires var i := IndexOf(lh, b);
             i < |lh| ==> d'[l.start + 1 + i] == CommitAt(l, d, lh, data, h, h0, k, l.start + 1 + i)
    ensures LoggedAt(l, d', ListedAfter(lh, k), b) == if k <= |lh| then d[b] else After(l, d, lh, data)[b]
  {
  }

  lemma LoggedAfterCommit(l: Layout, d: Disk, lh: seq<nat>, data: seq<Block>, h: Block, h0: Block, k: nat, d': Disk)
    requires Fits(l, d) && Loggable(l, lh) && |lh| == |data| > 0 && k <= 2 * |lh| + 2
    requires |d'| == |d| && forall b: nat | b < |d| :: d'[b] == CommitAt(l, d, lh, data, h, h0, k, b)
    ensures Loggable(l, ListedAfter(lh, k))
    ensures Logged(l, d', ListedAfter(lh, k)) == if k <= |lh| then Logged(l, d, []) else After(l, d, lh, data)
  {
    assert Loggable(l, ListedAfter(lh, k));
    forall b: nat | Home(l, b)
      ensures LoggedAt(l, d', ListedAfter(lh, k), b) == if k <= |lh| then d[b] else After(l, d, lh, data)[b]
    {
      LoggedAtAfterCommit(l, d, lh, data, h, h0, k, d', b);
    }
  }

  /** A crash after any number of commit's writes leaves the old state or the new one
      to recovery, the new one exactly when the header write is among them. */
  lemma CommitCrash(l: Layout, d: Disk, lh: seq<nat>, data: seq<Block>, k: nat)
    requires WellFormed(l, d) && ReadHeader(d[l.start]) == []
    requires Loggable(l, lh) && |lh| == |data| && k <= |Commit(l, d, lh, data)|
    ensures var d' := Apply(d, Commit(l, d, lh, data)[..k]);
            && WellFormed(l, d')
            && Durable(l, d') == (if k <= |lh| then Durable(l, d) else After(l, d, lh, data))
            && (k == |Commit(l, d, lh, data)| ==> ReadHeader(d'[l.start]) == [])
  {
    if lh != [] {
      var h := WriteHeader(d[l.start], lh);
      var h0 := WriteHeader(h, []);
      HeaderRoundTrip(d[l.start], lh);
      HeaderRoundTrip(h, []);
      var d' := Apply(d, Commit(l, d, lh, data)[..k]);
      forall b: nat | b < |d| ensures d'[b] == CommitAt(l, d, lh, data, h, h0, k, b) {
        CommitPrefix(l, d, lh, data, h, h0, k, b);
      }
      LoggedAfterCommit(l, d, lh, data, h, h0, k, d');
    }
  }

  /** The writes of recover_from_log on disk `d`. */
  function Recovery(l: Layout, d: Disk): (ws: seq<Write>)
    requires WellFormed(l, d)
    ensures InRange(d, ws)
  {
    RecoveryWrites(l, d, ReadHeader(d[l.start]), WriteHeader(d[l.start], []))
  }

  lemma LoggedAtAfterRecovery(l: Layout, d: Disk, lh: seq<nat>, h0: Block, k: nat, d': Disk, b: nat)
    requires Fits(l, d) && Loggable(l, lh) && |d'| == |d| && k <= |lh| + 1
    requires Loggable(l, if k <= |lh| then lh else []) && Home(l, b)
    requires d'[b] == RecoveryAt(l, d, lh, h0, k, b)
    requires var i := IndexOf(lh, b);
             i < |lh| ==> d'[l.start + 1 + i] == RecoveryAt(l, d, lh, h0, k, l.start + 1 + i)
    ensures LoggedAt(l, d', if k <= |lh| then lh else [], b) == LoggedAt(l, d, lh, b)
  {
  }

  lemma LoggedAfterRecovery(l: Layout, d: Disk, lh: seq<nat>, h0: Block, k: nat, d': Disk)
    requires Fits(l, d) && Loggable(l, lh) && k <= |lh| + 1
    requires |d'| == |d| && forall b: nat | b < |d| :: d'[b] == RecoveryAt(l, d, lh, h0, k, b)
    ensures var lh' := if k <= |lh| then lh else [];
            Loggable(l, lh') && Logged(l, d', lh') == Logged(l, d, lh)
  {
    var lh' := if k <= |lh| then lh else [];
    assert Loggable(l, lh');
    forall b: nat | Home(l, b) ensures LoggedAt(l, d', lh', b) == LoggedAt(l, d, lh, b) {
      LoggedAtAfterRecovery(l, d, lh, h0, k, d', b);
    }
  }

  /** Recovery may itself crash after any number of its writes; a later recovery will
      leave the same home blocks.  When it completes, the home blocks are in place and
      the log is empty. */
  lemma RecoveryCrash(l: Layout, d: Disk, k: nat)
    requires WellFormed(l, d) && k <= |Recovery(l, d)|
    ensures var d' := Apply(d, Recovery(l, d)[..k]);
            && WellFormed(l, d') && Durable(l, d') == Durable(l, d)
            && (k == |Recovery(l, d)| ==>
                  && ReadHeader(d'[l.start]) == []
                  && forall b: nat | Home(l, b) :: d'[b] == Durable(l, d)[b])
  {
    var lh, h0 := ReadHeader(d[l.start]), WriteHeader(d[l.start], []);
    HeaderRoundTrip(d[l.start], []);
    var d' := Apply(d, Recovery(l, d)[..k]);
    forall b: nat | b < |d| ensures d'[b] == RecoveryAt(l, d, lh, h0, k, b) {
      RecoveryPrefix(l, d, lh, h0, k, b);
    }
    LoggedAfterRecovery(l, d, lh, h0, k, d');
    if k == |lh| + 1 {
      forall b: nat | Home(l, b) ensures d'[b] == Durable(l, d)[b] {
        assert d'[b] == Logged(l, d', [])[b];
      }
    }
  }

  /** Boots that crash: boot `i` performs the first `ks[i]` writes of its recovery. */
  function CrashedBoots(l: Layout, d: Disk, ks: seq<nat>): (r: Disk)
    requires WellFormed(l, d)
    ensures |r| == |d| && WellFormed(l, r) && Durable(l, r) == Durable(l, d)
  {
    if ks == [] then d
    else
      var p := CrashedBoots(l, d, ks[..|ks| - 1]);
      var k := ks[|ks| - 1];
      if k <= |Recovery(l, p)| then
        RecoveryCrash(l, p, k);
        Apply(p, Recovery(l, p)[..k])
      else p
  }

  /** Crash atomicity of the whole protocol: crash commit after any `k` writes, crash
      any number of recoveries after any number of theirs, and let one recovery finish:
      the home blocks are exactly those before the transaction, or exactly those after
      it, the latter if and only if the header write was among the `k`. */
  lemma CrashAtomicity(l: Layout, d: Disk, lh: seq<nat>, data: seq<Block>, k: nat, ks: seq<nat>)
    requires WellFormed(l, d) && ReadHeader(d[l.start]) == []
    requires Loggable(l, lh) && |lh| == |data| && k <= |Commit(l, d, lh, data)|
    ensures var crashed := Apply(d, Commit(l, d, lh, data)[..k]);
            && WellFormed(l, crashed)
            && var booted := CrashedBoots(l, crashed, ks);
               var r := Apply(booted, Recovery(l, booted));
               && ReadHeader(r[l.start]) == []
               && forall b: nat | Home(l, b) ::
                    r[b] == if k <= |lh| then d[b] else After(l, d, lh, data)[b]
  {
    CommitCrash(l, d, lh, data, k);
    var booted := CrashedBoots(l, Apply(d, Commit(l, d, lh, data)[..k]), ks);
    RecoveryCrash(l, booted, |Recovery(l, booted)|);
    assert Recovery(l, booted)[..|Recovery(l, booted)|] == Recovery(l, booted);
    forall b: nat | Home(l, b)
      ensures Durable(l, d)[b] == d[b]
    {
    }
  }
}
