/** Pipes (kernel/pipe.c): a ring of PIPESIZE bytes with 32-bit counters, shared by any number of
    readers and writers that sleep when it is empty or full.  One step handles one byte, or one test
    that leads to sleeping or returning; the pipe's lock keeps the others out in between. */
module Pipes {
  import opened Prelude

  const PIPESIZE := 512

  datatype Pc =
    | Idle
    // pipewrite, with `i` bytes of `src` stored: in its loop; asleep on nwrite; woken
    | Writing(src: seq<Byte>, i: nat)
    | WriterAsleep(src: seq<Byte>, i: nat)
    | WriterWoken(src: seq<Byte>, i: nat)
    // piperead of `n` bytes: testing for data; asleep on nread; woken; copying
    | Testing(n: nat)
    | ReaderAsleep(n: nat)
    | ReaderWoken(n: nat)
    | Reading(n: nat, got: nat)

  /** The pipe and the processes that use it.  `put` is every byte ever stored, `taken` every byte
      removed, `out` what reached the readers and `lost` the places in `taken` of the other bytes. */
  datatype State = State(data: seq<Byte>, nread: nat, nwrite: nat, readopen: bool, writeopen: bool, lock: Option<nat>,
                         pcs: seq<Pc>, killed: seq<bool>, put: seq<Byte>, taken: seq<Byte>, out: seq<Byte>,
                         lost: set<nat>)

  datatype Step = StartWrite(p: nat, src: seq<Byte>) | StartRead(p: nat,
                                                                 n: nat) | Resume(p: nat) | Go(p: nat, copied: bool)
                | Close(writable: bool) | Kill(p: nat)

  predicate Full(s: State) {
    s.nwrite == (s.nread + PIPESIZE) % WRAP
  }

  predicate Empty(s: State) {
    s.nread == s.nwrite
  }

  function WakeReader(pc: Pc): (r: Pc) {
    if pc.ReaderAsleep? then ReaderWoken(pc.n) else pc
  }

  function WakeWriter(pc: Pc): (r: Pc) {
    if pc.WriterAsleep? then WriterWoken(pc.src, pc.i) else pc
  }

  function WakeReaders(pcs: seq<Pc>): (r: seq<Pc>) {
    seq(|pcs|, i requires 0 <= i < |pcs| => WakeReader(pcs[i]))
  }

  function WakeWriters(pcs: seq<Pc>): (r: seq<Pc>) {
    seq(|pcs|, i requires 0 <= i < |pcs| => WakeWriter(pcs[i]))
  }

  predicate Enabled(s: State, step: Step) {
    |s.killed| == |s.pcs| && |s.data| == PIPESIZE &&
    match step
    case StartWrite(p, _) => p < |s.pcs| && s.pcs[p].Idle? && s.lock == None
    case StartRead(p, _) => p < |s.pcs| && s.pcs[p].Idle? && s.lock == None
    case Resume(p) => p < |s.pcs| && (s.pcs[p].WriterWoken? || s.pcs[p].ReaderWoken?) && s.lock == None
    case Go(p, _) => p < |s.pcs| && s.lock == Some(p) && (s.pcs[p].Writing? || s.pcs[p].Testing? || s.pcs[p].Reading?)
    case Close(_) => s.lock == None
    case Kill(p) => p < |s.pcs|
  }

  /** Process `p` gives the lock back and goes on at `pc`. */
  function Leave(s: State, p: nat, pc: Pc): (t: State)
    requires p < |s.pcs|
  {
    s.(lock := None, pcs := s.pcs[p := pc])
  }

  function Next(s: State, step: Step): (t: State)
    requires Enabled(s, step)
  {
    match step
    case StartWrite(p, src) => s.(lock := Some(p), pcs := s.pcs[p := Writing(src, 0)])
    case StartRead(p, n) => s.(lock := Some(p), pcs := s.pcs[p := Testing(n)])
    case Resume(p) =>
      var pc := s.pcs[p];
      s.(lock := Some(p), pcs := s.pcs[p := if pc.WriterWoken? then Writing(pc.src, pc.i) else Testing(pc.n)])
    case Go(p, copied) =>
      (match s.pcs[p]
       case Writing(src, i) => Write(s, p, src, i, copied)
       case Testing(n) =>
         if !(Empty(s) && s.writeopen) then s.(pcs := s.pcs[p := Reading(n, 0)])
         else if s.killed[p] then Leave(s, p, Idle)
         else Leave(s, p, ReaderAsleep(n))
       case Reading(n, got) => Read(s, p, n, got, copied)
       case _ => s)
    case Close(writable) =>
      if writable then s.(writeopen := false, pcs := WakeReaders(s.pcs))
      else s.(readopen := false, pcs := WakeWriters(s.pcs))
    case Kill(p) => s.(killed := s.killed[p := true], pcs := s.pcs[p := WakeWriter(WakeReader(s.pcs[p]))])
  }

  /** One round of pipewrite's loop. */
  function Write(s: State, p: nat, src: seq<Byte>, i: nat, copied: bool): (t: State)
    requires p < |s.pcs| && p < |s.killed| && |s.data| == PIPESIZE
  {
    if i >= |src| then Leave(s.(pcs := WakeReaders(s.pcs)), p, Idle)
    else if Full(s) then
      if !s.readopen || s.killed[p] then Leave(s, p, Idle)
      else Leave(s.(pcs := WakeReaders(s.pcs)), p, WriterAsleep(src, i))
    else if !copied then Leave(s.(pcs := WakeReaders(s.pcs)), p, Idle)
    else s.(data := s.data[s.nwrite % PIPESIZE := src[i]], nwrite := (s.nwrite + 1) % WRAP,
            put := s.put + [src[i]], pcs := s.pcs[p := Writing(src, i + 1)])
  }

  /** One round of piperead's second loop. */
  function Read(s: State, p: nat, n: nat, got: nat, copied: bool): (t: State)
    requires p < |s.pcs| && |s.data| == PIPESIZE
  {
    if got >= n || Empty(s) then Leave(s.(pcs := WakeWriters(s.pcs)), p, Idle)
    else
      var ch := s.data[s.nread % PIPESIZE];
      var t := s.(nread := (s.nread + 1) % WRAP, taken := s.taken + [ch]);
      if copied then t.(out := s.out + [ch], pcs := s.pcs[p := Reading(n, got + 1)])
      else Leave(t.(lost := s.lost + {|s.taken|}, pcs := WakeWriters(s.pcs)), p, Idle)
  }

  // ---------- the ring ----------

  /** The bytes of `s` whose places are not in `lost`. */
  function Kept(s: seq<Byte>, lost: set<nat>): (r: seq<Byte>) {
    if s == [] then []
    else Kept(s[..|s| - 1], lost) + if |s| - 1 in lost then [] else [s[|s| - 1]]
  }

  /** The counters are the numbers of bytes stored and removed, modulo 2^32; what was removed is the
      beginning of what was stored; and the ring holds the bytes in between. */
  ghost predicate RingOk(s: State) {
    && |s.data| == PIPESIZE && |s.killed| == |s.pcs|
    && s.nread == |s.taken| % WRAP && s.nwrite == |s.put| % WRAP
    && |s.taken| <= |s.put| <= |s.taken| + PIPESIZE && s.taken == s.put[..|s.taken|]
    && (forall k: nat | |s.taken| <= k < |s.put| :: s.data[k % PIPESIZE] == s.put[k])
    && s.out == Kept(s.taken, s.lost)
    && (forall k | k in s.lost :: k < |s.taken|)
  }

  /** Across the counters' wrap-around, the two tests are exact. */
  lemma TestsExact(s: State)
    requires RingOk(s)
    ensures Empty(s) <==> |s.taken| == |s.put|
    ensures Full(s) <==> |s.put| == |s.taken| + PIPESIZE
    ensures s.nread % PIPESIZE == |s.taken| % PIPESIZE && s.nwrite % PIPESIZE == |s.put| % PIPESIZE
  {
    CountersApart(|s.taken|, |s.put| - |s.taken|);
    WrapSlot(|s.taken|);
    WrapSlot(|s.put|);
  }

  lemma CountersApart(a: nat, d: nat)
    requires d <= PIPESIZE
    ensures a % WRAP == (a + d) % WRAP <==> d == 0
    ensures (a + d) % WRAP == (a % WRAP + PIPESIZE) % WRAP <==> d == PIPESIZE
  {
    Wrapped(a, d);
    var x := a % WRAP;
    assert (x + d) % WRAP == if x + d < WRAP then x + d else x + d - WRAP;
    assert (x + PIPESIZE) % WRAP == if x + PIPESIZE < WRAP then x + PIPESIZE else x + PIPESIZE - WRAP;
  }

  lemma Wrapped(a: nat, d: nat)
    ensures (a + d) % WRAP == (a % WRAP + d) % WRAP
  {
  }

  lemma WrapSlot(a: nat)
    ensures a % WRAP % PIPESIZE == a % PIPESIZE
  {
    var q := a / WRAP;
    assert a == q * WRAP + a % WRAP;
    assert WRAP == 0x80_0000 * PIPESIZE;
    ModPlus(q * 0x80_0000, a % WRAP);
    assert q * 0x80_0000 * PIPESIZE == q * WRAP;
  }

  lemma ModPlus(m: nat, b: nat)
    ensures (m * PIPESIZE + b) % PIPESIZE == b % PIPESIZE
  {
  }

  lemma KeptMore(s: seq<Byte>, ch: Byte, lost: set<nat>)
    requires forall k | k in lost :: k < |s|
    ensures Kept(s + [ch], lost) == Kept(s, lost) + [ch]
    ensures Kept(s + [ch], lost + {|s|}) == Kept(s, lost)
  {
    assert (s + [ch])[..|s|] == s;
    KeptSame(s, lost, lost + {|s|});
  }

  lemma KeptSame(s: seq<Byte>, lost: set<nat>, lost': set<nat>)
    requires forall k: nat | k < |s| :: k in lost <==> k in lost'
    ensures Kept(s, lost) == Kept(s, lost')
  {
  }

  /** Storing a byte and taking one keep the ring in order. */
  lemma StoreByte(s: State, t: State, ch: Byte)
    requires RingOk(s) && |s.put| < |s.taken| + PIPESIZE
    requires t == s.(data := s.data[s.nwrite % PIPESIZE := ch], nwrite := (s.nwrite + 1) % WRAP, put := s.put + [ch],
                     pcs := t.pcs)
    requires |t.pcs| == |s.pcs|
    ensures RingOk(t)
  {
    TestsExact(s);
    Wrapped(|s.put|, 1);
    forall k: nat | |t.taken| <= k < |t.put| ensures t.data[k % PIPESIZE] == t.put[k] {
      SlotsApart(|s.taken|, |s.put|, k);
    }
  }

  lemma SlotsApart(a: nat, b: nat, k: nat)
    requires a <= k <= b < a + PIPESIZE
    ensures k % PIPESIZE == b % PIPESIZE ==> k == b
  {
  }

  lemma TakeByte(s: State, t: State, ch: Byte, lost: bool)
    requires RingOk(s) && |s.taken| < |s.put| && ch == s.data[s.nread % PIPESIZE] && |t.pcs| == |s.pcs|
    requires t == s.(nread := (s.nread + 1) % WRAP, taken := s.taken + [ch],
                     out := if lost then s.out else s.out + [ch],
                     lost := if lost then s.lost + {|s.taken|} else s.lost, pcs := t.pcs, lock := t.lock)
    ensures RingOk(t)
  {
    TestsExact(s);
    Wrapped(|s.taken|, 1);
    KeptMore(s.taken, ch, s.lost);
    assert t.taken == s.put[..|s.taken| + 1];
  }

  // ---------- locks and sleepers ----------

  predicate Inside(pc: Pc) {
    pc.Writing? || pc.Testing? || pc.Reading?
  }

  ghost predicate LockOk(s: State) {
    && (forall p | 0 <= p < |s.pcs| :: Inside(s.pcs[p]) <==> s.lock == Some(p))
    && (s.lock.Some? ==> s.lock.value < |s.pcs|)
  }

  ghost predicate Inv(s: State) {
    RingOk(s) && LockOk(s)
  }

  /** Unless a writer is in the pipe, a reader sleeps only on an empty pipe that can still be written. */
  ghost predicate ReadersOk(s: State) {
    (s.lock.Some? && s.lock.value < |s.pcs| && s.pcs[s.lock.value].Writing?) ||
    forall p | 0 <= p < |s.pcs| && s.pcs[p].ReaderAsleep? :: Empty(s) && s.writeopen
  }

  /** Unless a reader is in the pipe, a writer sleeps only on a full pipe that can still be read. */
  ghost predicate WritersOk(s: State) {
    (s.lock.Some? && s.lock.value < |s.pcs| && s.pcs[s.lock.value].Reading?) ||
    forall p | 0 <= p < |s.pcs| && s.pcs[p].WriterAsleep? :: Full(s) && s.readopen
  }

  /** A writer returns from a full pipe, because it was killed or the read end is closed, while a
      reader is asleep. */
  ghost predicate Abandons(s: State, step: Step) {
    && step.Go? && step.p < |s.pcs| == |s.killed| && s.pcs[step.p].Writing? && s.pcs[step.p].i < |s.pcs[step.p].src|
    && Full(s) && (!s.readopen || s.killed[step.p])
    && exists q :: 0 <= q < |s.pcs| && s.pcs[q].ReaderAsleep?
  }

  lemma StepRing(s: State, step: Step)
    requires Inv(s) && Enabled(s, step)
    ensures RingOk(Next(s, step))
  {
    hide RingOk, LockOk;
    var t := Next(s, step);
    TestsExact(s);
    if step.Go? && s.pcs[step.p].Writing? && s.pcs[step.p].i < |s.pcs[step.p].src| && !Full(s) && step.copied {
      RoomLeft(s);
      StoreByte(s, t, s.pcs[step.p].src[s.pcs[step.p].i]);
    } else if step.Go? && s.pcs[step.p].Reading? && s.pcs[step.p].got < s.pcs[step.p].n && !Empty(s) {
      RoomLeft(s);
      TakeByte(s, t, s.data[s.nread % PIPESIZE], !step.copied);
    } else {
      RingSame(s, t);
    }
  }

  lemma RoomLeft(s: State)
    requires RingOk(s)
    ensures |s.taken| <= |s.put| <= |s.taken| + PIPESIZE
  {
  }

  lemma RingSame(s: State, t: State)
    requires RingOk(s) && t.data == s.data && t.nread == s.nread && t.nwrite == s.nwrite && |t.killed| == |s.killed|
    requires |t.pcs| == |s.pcs| && t.put == s.put && t.taken == s.taken && t.out == s.out && t.lost == s.lost
    ensures RingOk(t)
  {
  }

  lemma StepLocks(s: State, step: Step)
    requires Inv(s) && Enabled(s, step)
    ensures LockOk(Next(s, step))
  {
    hide RingOk, Next, LockOk;
    if !step.Go? {
      OtherLocks(s, step);
    } else if s.pcs[step.p].Writing? {
      WriteLocks(s, step);
    } else {
      ReadLocks(s, step);
    }
  }

  lemma WriteLocks(s: State, step: Step)
    requires LockOk(s) && Enabled(s, step) && step.Go? && s.pcs[step.p].Writing?
    ensures LockOk(Next(s, step))
  {
    hide Read, Full, Empty;
  }

  lemma ReadLocks(s: State, step: Step)
    requires LockOk(s) && Enabled(s, step) && step.Go? && !s.pcs[step.p].Writing?
    ensures LockOk(Next(s, step))
  {
    hide Write, Full, Empty;
  }

  lemma OtherLocks(s: State, step: Step)
    requires LockOk(s) && Enabled(s, step) && !step.Go?
    ensures LockOk(Next(s, step))
  {
    hide Write, Read, Full, Empty;
  }

  /** Readers sleep only on an empty pipe as long as no step abandons them, and no longer. */
  lemma StepReaders(s: State, step: Step)
    requires Inv(s) && Enabled(s, step) && ReadersOk(s)
    ensures ReadersOk(Next(s, step)) <==> !Abandons(s, step)
  {
    hide RingOk, LockOk, ReadersOk, Next, Full, Empty;
    if !step.Go? {
      OtherReaders(s, step);
    } else if s.pcs[step.p].Writing? {
      WriteReaders(s, step);
    } else {
      ReadReaders(s, step);
    }
  }

  /** A round of pipewrite: it stays in the pipe, or wakes the readers, or abandons them. */
  lemma WriteReaders(s: State, step: Step)
    requires Inv(s) && Enabled(s, step) && ReadersOk(s) && step.Go? && s.pcs[step.p].Writing?
    ensures ReadersOk(Next(s, step)) <==> !Abandons(s, step)
  {
    hide LockOk, RingOk, Read, Full, Empty;
    FullIsNotEmpty(s);
    if Abandons(s, step) {
      var t := Next(s, step);
      var q :| 0 <= q < |s.pcs| && s.pcs[q].ReaderAsleep?;
      assert t.pcs[q].ReaderAsleep? && !Empty(t) by { SameRoom(s, t); }
    }
  }

  lemma FullIsNotEmpty(s: State)
    requires RingOk(s)
    ensures !(Full(s) && Empty(s))
  {
    TestsExact(s);
  }

  lemma SameRoom(s: State, t: State)
    requires t.nread == s.nread && t.nwrite == s.nwrite
    ensures (Full(t) <==> Full(s)) && (Empty(t) <==> Empty(s))
  {
  }

  /** A round of piperead: bytes are taken only while no reader sleeps. */
  lemma ReadReaders(s: State, step: Step)
    requires Inv(s) && Enabled(s, step) && ReadersOk(s) && step.Go? && !s.pcs[step.p].Writing?
    ensures ReadersOk(Next(s, step))
  {
    hide LockOk, RingOk, Write, Full;
    LockHolder(s);
    var t := Next(s, step);
    forall p | 0 <= p < |t.pcs| && t.pcs[p].ReaderAsleep? ensures Empty(t) && t.writeopen {
      assert s.pcs[p].ReaderAsleep? || step.p == p;
    }
  }

  lemma OtherReaders(s: State, step: Step)
    requires Inv(s) && Enabled(s, step) && ReadersOk(s) && !step.Go?
    ensures ReadersOk(Next(s, step))
  {
    hide LockOk, RingOk, Write, Read, Full, Empty;
    LockHolder(s);
    var t := Next(s, step);
    SameRoom(s, t);
    if !(s.lock.Some? && s.lock.value < |s.pcs| && s.pcs[s.lock.value].Writing?) {
      forall p | 0 <= p < |t.pcs| && t.pcs[p].ReaderAsleep? ensures Empty(t) && t.writeopen {
        assert s.pcs[p].ReaderAsleep?;
      }
    }
  }

  lemma LockHolder(s: State)
    requires LockOk(s)
    ensures s.lock.Some? ==> s.lock.value < |s.pcs| && Inside(s.pcs[s.lock.value])
    ensures forall p | 0 <= p < |s.pcs| && Inside(s.pcs[p]) :: s.lock == Some(p)
  {
  }

  lemma StepWriters(s: State, step: Step)
    requires Inv(s) && Enabled(s, step) && WritersOk(s)
    ensures WritersOk(Next(s, step))
  {
    hide RingOk, LockOk, WritersOk, Next, Full, Empty;
    if !step.Go? {
      OtherWriters(s, step);
    } else if s.pcs[step.p].Writing? {
      WriteWriters(s, step);
    } else {
      ReadWriters(s, step);
    }
  }

  /** A round of pipewrite: bytes are stored only while no writer sleeps. */
  lemma WriteWriters(s: State, step: Step)
    requires Inv(s) && Enabled(s, step) && WritersOk(s) && step.Go? && s.pcs[step.p].Writing?
    ensures WritersOk(Next(s, step))
  {
    hide LockOk, RingOk, Read, Empty, Full;
    LockHolder(s);
    var t := Next(s, step);
    forall p | 0 <= p < |t.pcs| && t.pcs[p].WriterAsleep? ensures Full(t) && t.readopen {
      assert s.pcs[p].WriterAsleep? || step.p == p;
      assert Full(s);
      SameRoom(s, t);
    }
  }

  /** A round of piperead: it stays in the pipe, or wakes the writers, or finds no byte. */
  lemma ReadWriters(s: State, step: Step)
    requires Inv(s) && Enabled(s, step) && WritersOk(s) && step.Go? && !s.pcs[step.p].Writing?
    ensures WritersOk(Next(s, step))
  {
    hide LockOk, RingOk, Write, Empty, Full;
    LockHolder(s);
    var t := Next(s, step);
    if s.pcs[step.p].Testing? {
      SameRoom(s, t);
      forall p | 0 <= p < |t.pcs| && t.pcs[p].WriterAsleep? ensures Full(t) && t.readopen {
        assert s.pcs[p].WriterAsleep?;
      }
    }
  }

  lemma OtherWriters(s: State, step: Step)
    requires Inv(s) && Enabled(s, step) && WritersOk(s) && !step.Go?
    ensures WritersOk(Next(s, step))
  {
    hide LockOk, RingOk, Write, Read, Full, Empty;
    LockHolder(s);
    var t := Next(s, step);
    SameRoom(s, t);
    if !(s.lock.Some? && s.lock.value < |s.pcs| && s.pcs[s.lock.value].Reading?) {
      forall p | 0 <= p < |t.pcs| && t.pcs[p].WriterAsleep? ensures Full(t) && t.readopen {
        assert s.pcs[p].WriterAsleep?;
      }
    }
  }

  // ---------- runs ----------

  /** A new pipe, used by `n` processes. */
  function Init(n: nat): (s: State) {
    State(seq(PIPESIZE, _ => 0), 0, 0, true, true, None, seq(n, _ => Idle), seq(n, _ => false), [], [], [], {})
  }

  ghost predicate IsRun(tr: seq<State>, steps: seq<Step>) {
    && |tr| == |steps| + 1 && tr[0] == Init(|tr[0].pcs|)
    && forall i | 0 <= i < |steps| :: Enabled(tr[i], steps[i]) && tr[i + 1] == Next(tr[i], steps[i])
  }

  lemma RunInv(tr: seq<State>, steps: seq<Step>, n: nat)
    requires IsRun(tr, steps) && n < |tr|
    ensures Inv(tr[n]) && WritersOk(tr[n])
  {
    hide RingOk, LockOk, WritersOk, Next, Enabled;
    if n == 0 {
      InitOk(|tr[0].pcs|);
    } else {
      RunInv(tr, steps, n - 1);
      assert tr[n - 1 + 1] == Next(tr[n - 1], steps[n - 1]);
      StepRing(tr[n - 1], steps[n - 1]);
      StepLocks(tr[n - 1], steps[n - 1]);
      StepWriters(tr[n - 1], steps[n - 1]);
    }
  }

  lemma InitOk(n: nat)
    ensures Inv(Init(n)) && WritersOk(Init(n)) && ReadersOk(Init(n))
  {
  }

  /** At any time what left the pipe is what was written first, in order, but for one byte for each
      failed copy, and at most PIPESIZE bytes are in it. */
  lemma Fifo(tr: seq<State>, steps: seq<Step>, n: nat)
    requires IsRun(tr, steps) && n < |tr|
    ensures var s := tr[n];
            && |s.taken| <= |s.put| <= |s.taken| + PIPESIZE && s.taken == s.put[..|s.taken|]
            && s.out == Kept(s.taken, s.lost)
  {
    RunInv(tr, steps, n);
  }

  // ---------- whose bytes they are ----------

  /** The call of pipewrite a process is in: what it writes, and how much of that is stored. */
  ghost function Call(pc: Pc): (c: Option<(seq<Byte>, nat)>) {
    if pc.Writing? || pc.WriterAsleep? || pc.WriterWoken? then Some((pc.src, pc.i)) else None
  }

  /** The part a call has stored so far. */
  ghost function Part(c: Option<(seq<Byte>, nat)>): (s: seq<Byte>) {
    if c.Some? && c.value.1 <= |c.value.0| then c.value.0[..c.value.1] else []
  }

  /** A step that stores nothing, as process `p` sees it: its call goes on or ends, or one begins. */
  ghost predicate NoByte(s: State, t: State, step: Step, p: nat)
    requires p < |s.pcs| == |t.pcs|
  {
    var c, d := Call(s.pcs[p]), Call(t.pcs[p]);
    d == c || d == None || (c == None && step.StartWrite? && step.p == p && d == Some((step.src, 0)))
  }

  /** A step that stores the next byte of the call of the process that takes it. */
  ghost predicate OneByte(s: State, t: State, step: Step, p: nat)
    requires p < |s.pcs| == |t.pcs|
  {
    step.Go? && step.p < |s.pcs| &&
    var c := Call(s.pcs[step.p]);
    && c.Some? && c.value.1 < |c.value.0| && t.put == s.put + [c.value.0[c.value.1]]
    && Call(t.pcs[p]) == if p == step.p then Some((c.value.0, c.value.1 + 1)) else Call(s.pcs[p])
  }

  lemma StepStores(s: State, step: Step, p: nat)
    requires Enabled(s, step) && p < |s.pcs|
    ensures var t := Next(s, step);
            |t.pcs| == |s.pcs| && if t.put == s.put then NoByte(s, t, step, p) else OneByte(s, t, step, p)
  {
    hide Full, Empty, Read, Write;
    if step.Go? && s.pcs[step.p].Writing? {
      WriteStores(s, step, p);
    } else if step.Go? && s.pcs[step.p].Reading? {
      ReadStores(s, step, p);
    }
  }

  lemma WriteStores(s: State, step: Step, p: nat)
    requires Enabled(s, step) && p < |s.pcs| && step.Go? && s.pcs[step.p].Writing?
    ensures var t := Next(s, step);
            |t.pcs| == |s.pcs| && if t.put == s.put then NoByte(s, t, step, p) else OneByte(s, t, step, p)
  {
    hide Full, Empty, Read;
    var t := Next(s, step);
    assert t.put == s.put || |t.put| == |s.put| + 1;
  }

  lemma ReadStores(s: State, step: Step, p: nat)
    requires Enabled(s, step) && p < |s.pcs| && step.Go? && s.pcs[step.p].Reading?
    ensures var t := Next(s, step); |t.pcs| == |s.pcs| && t.put == s.put && NoByte(s, t, step, p)
  {
    hide Full, Empty, Write;
  }

  /** Who has stored each byte of `put`, after the first `n` steps. */
  ghost function Who(tr: seq<State>, steps: seq<Step>, n: nat): (who: seq<Option<nat>>)
    requires n < |tr| == |steps| + 1
  {
    if n == 0 then []
    else Who(tr, steps, n - 1) + if tr[n].put == tr[n - 1].put then []
                                 else [if steps[n - 1].Go? then Some(steps[n - 1].p) else None]
  }

  /** The bytes of process `p`, in order. */
  ghost function Of(s: seq<Byte>, who: seq<Option<nat>>, p: nat): (r: seq<Byte>)
    requires |who| == |s|
  {
    if s == [] then []
    else Of(s[..|s| - 1], who[..|s| - 1], p) + if who[|s| - 1] == Some(p) then [s[|s| - 1]] else []
  }

  /** What the calls of process `p` that ended in the first `n` steps have stored, one after the other. */
  ghost function Ended(tr: seq<State>, p: nat, n: nat): (s: seq<Byte>)
    requires n < |tr|
  {
    if n == 0 then []
    else Ended(tr, p, n - 1)
         + if p < |tr[n - 1].pcs| && p < |tr[n].pcs| && Call(tr[n].pcs[p]) == None
           then Part(Call(tr[n - 1].pcs[p])) else []
  }

  /** `put` is a merge of what the processes write: the bytes of each are the parts that its calls have
      stored, each a beginning of what the call was given, in the order of the calls. */
  lemma {:induction false} Merged(tr: seq<State>, steps: seq<Step>, n: nat, p: nat)
    requires IsRun(tr, steps) && n < |tr| && p < |tr[0].pcs|
    ensures |tr[n].pcs| == |tr[0].pcs| && |Who(tr, steps, n)| == |tr[n].put|
    ensures var c := Call(tr[n].pcs[p]);
            && (c.Some? ==> c.value.1 <= |c.value.0|)
            && Of(tr[n].put, Who(tr, steps, n), p) == Ended(tr, p, n) + Part(c)
  {
    hide Next, Enabled, Call, Part, Of;
    if n == 0 {
      MergedStart(tr[0], p);
    } else {
      Merged(tr, steps, n - 1, p);
      var s, t, step := tr[n - 1], tr[n], steps[n - 1];
      assert tr[n - 1 + 1] == Next(s, step);
      StepStores(s, step, p);
      var c, d := Call(s.pcs[p]), Call(t.pcs[p]);
      if t.put == s.put {
        assert Who(tr, steps, n) == Who(tr, steps, n - 1);
        PartSame(Ended(tr, p, n - 1), c, d);
      } else {
        OfMore(s.put, Who(tr, steps, n - 1), t.put[|s.put|], step.p, p);
        if p == step.p {
          PartMore(Ended(tr, p, n - 1), c);
        } else {
          PartSame(Ended(tr, p, n - 1), c, d);
        }
      }
    }
  }

  lemma MergedStart(s: State, p: nat)
    requires p < |s.pcs| && s == Init(|s.pcs|)
    ensures Call(s.pcs[p]) == None && Of(s.put, [], p) == [] && Part(Call(s.pcs[p])) == []
  {
  }

  lemma PartSame(ended: seq<Byte>, c: Option<(seq<Byte>, nat)>, d: Option<(seq<Byte>, nat)>)
    requires d == c || d == None || (c == None && d.Some? && d.value.1 == 0)
    ensures ended + (if d == None then Part(c) else []) + Part(d) == ended + Part(c)
  {
  }

  lemma PartMore(ended: seq<Byte>, c: Option<(seq<Byte>, nat)>)
    requires c.Some? && c.value.1 < |c.value.0|
    ensures ended + [] + Part(Some((c.value.0, c.value.1 + 1))) == ended + Part(c) + [c.value.0[c.value.1]]
  {
    var src, i := c.value.0, c.value.1;
    assert src[..i + 1] == src[..i] + [src[i]];
  }

  lemma OfMore(s: seq<Byte>, who: seq<Option<nat>>, x: Byte, q: nat, p: nat)
    requires |who| == |s|
    ensures Of(s + [x], who + [Some(q)], p) == Of(s, who, p) + if q == p then [x] else []
  {
    assert (s + [x])[..|s|] == s && (who + [Some(q)])[..|s|] == who;
  }

  /** What a call writes is what it was started with. */
  lemma {:induction false} CallBegan(tr: seq<State>, steps: seq<Step>, n: nat, p: nat) returns (a: nat)
    requires IsRun(tr, steps) && n < |tr| && p < |tr[n].pcs| && Call(tr[n].pcs[p]).Some?
    ensures a < n && steps[a] == StartWrite(p, Call(tr[n].pcs[p]).value.0)
    ensures forall m | a < m <= n :: p < |tr[m].pcs| && Call(tr[m].pcs[p]).Some?
                                     && Call(tr[m].pcs[p]).value.0 == Call(tr[n].pcs[p]).value.0
  {
    hide Next, Enabled;
    assert n > 0;
    var s, t, step := tr[n - 1], tr[n], steps[n - 1];
    assert tr[n - 1 + 1] == Next(s, step);
    SamePcs(s, step);
    StepStores(s, step, p);
    if Call(s.pcs[p]).Some? {
      a := CallBegan(tr, steps, n - 1, p);
    } else {
      a := n - 1;
    }
  }

  lemma SamePcs(s: State, step: Step)
    requires Enabled(s, step)
    ensures |Next(s, step).pcs| == |s.pcs| == |s.killed| && (|s.pcs| == 0 ==> Next(s, step).put == s.put)
  {
    hide Full, Empty;
  }

  // ---------- one writer ----------

  /** Nothing is written but by the one call that step `a` begins: at any time a beginning of its bytes is
      stored, and what has left the pipe is a beginning of them, but for the bytes of failed copies. */
  lemma OneWriter(tr: seq<State>, steps: seq<Step>, a: nat, n: nat)
    requires IsRun(tr, steps) && n < |tr| && a < |steps| && steps[a].StartWrite?
    requires forall k | 0 <= k < |steps| && k != a :: !steps[k].StartWrite?
    ensures var s, src := tr[n], steps[a].src;
            && s.put <= src && |s.taken| <= |src| && s.out == Kept(src[..|s.taken|], s.lost)
            && (s.lost == {} ==> s.out <= src)
  {
    hide Next, Enabled, RingOk, LockOk;
    OnlyCall(tr, steps, a, n);
    Fifo(tr, steps, n);
    var s, src := tr[n], steps[a].src;
    assert s.taken == s.put[..|s.taken|] == src[..|s.taken|];
    if s.lost == {} {
      KeptAll(s.taken);
    }
  }

  /** Before the call nothing is stored; and only that process is ever in one. */
  ghost predicate Alone(s: State, p: nat, src: seq<Byte>, began: bool) {
    && s.put <= src && (!began ==> s.put == [])
    && forall q | 0 <= q < |s.pcs| :: var c := Call(s.pcs[q]);
         c.Some? ==> began && q == p && c.value.0 == src && c.value.1 <= |src| && s.put == src[..c.value.1]
  }

  lemma {:induction false} OnlyCall(tr: seq<State>, steps: seq<Step>, a: nat, n: nat)
    requires IsRun(tr, steps) && n < |tr| && a < |steps| && steps[a].StartWrite?
    requires forall k | 0 <= k < |steps| && k != a :: !steps[k].StartWrite?
    ensures Alone(tr[n], steps[a].p, steps[a].src, n > a)
  {
    hide Next, Enabled, Alone;
    if n == 0 {
      AloneStart(tr[0], steps[a].p, steps[a].src);
    } else {
      OnlyCall(tr, steps, a, n - 1);
      var s, t, step := tr[n - 1], tr[n], steps[n - 1];
      assert tr[n - 1 + 1] == Next(s, step);
      SamePcs(s, step);
      forall q | 0 <= q < |t.pcs|
        ensures if t.put == s.put then NoByte(s, t, step, q) else OneByte(s, t, step, q)
      {
        StepStores(s, step, q);
      }
      AloneStep(s, t, step, steps[a].p, steps[a].src, n - 1 > a);
    }
  }

  lemma AloneStart(s: State, p: nat, src: seq<Byte>)
    requires s == Init(|s.pcs|)
    ensures Alone(s, p, src, false)
  {
  }

  lemma AloneStep(s: State, t: State, step: Step, p: nat, src: seq<Byte>, began: bool)
    requires Alone(s, p, src, began) && |t.pcs| == |s.pcs| && (|s.pcs| == 0 ==> t.put == s.put)
    requires step.StartWrite? ==> !began && step == StartWrite(p, src)
    requires forall q | 0 <= q < |t.pcs| ::
               if t.put == s.put then NoByte(s, t, step, q) else OneByte(s, t, step, q)
    ensures Alone(t, p, src, began || step.StartWrite?)
  {
    hide Call;
    if t.put == s.put {
      forall q | 0 <= q < |t.pcs| && Call(t.pcs[q]).Some?
        ensures q == p && Call(t.pcs[q]).value.0 == src && Call(t.pcs[q]).value.1 <= |src|
        ensures (began || step.StartWrite?) && t.put == src[..Call(t.pcs[q]).value.1]
      {
        assert NoByte(s, t, step, q);
      }
    } else {
      assert OneByte(s, t, step, 0);
      var i := Call(s.pcs[p]).value.1;
      assert src[..i + 1] == src[..i] + [src[i]];
      forall q | 0 <= q < |t.pcs| ensures Call(t.pcs[q]) == if q == p then Some((src, i + 1)) else None {
        assert OneByte(s, t, step, q);
      }
    }
  }

  lemma KeptAll(s: seq<Byte>)
    ensures Kept(s, {}) == s
  {
    if s != [] {
      KeptAll(s[..|s| - 1]);
    }
  }

  // ---------- what a call returns ----------

  /** One round of pipewrite, told by what has been stored and removed: it ends the call when all is
      stored, when the pipe holds 512 bytes and nobody can make room for it, or when its copy fails. */
  lemma WriteRound(tr: seq<State>, steps: seq<Step>, n: nat, p: nat)
    requires IsRun(tr, steps) && n < |steps| && steps[n].Go? && steps[n].p == p && p < |tr[n].pcs| == |tr[n].killed|
    requires tr[n].pcs[p].Writing?
    ensures var s, t, src, i := tr[n], tr[n + 1], tr[n].pcs[p].src, tr[n].pcs[p].i;
            && i <= |src| && p < |t.pcs|
            && t.pcs[p] == if i == |src| then Idle
                           else if |s.put| == |s.taken| + 512 then
                             if s.readopen && !s.killed[p] then WriterAsleep(src, i) else Idle
                           else if steps[n].copied then Writing(src, i + 1) else Idle
  {
    hide RingOk, LockOk, Read;
    RunInv(tr, steps, n);
    TestsExact(tr[n]);
    RunPcs(tr, steps, n);
    Merged(tr, steps, n, p);
  }

  lemma {:induction false} RunPcs(tr: seq<State>, steps: seq<Step>, n: nat)
    requires IsRun(tr, steps) && n < |tr|
    ensures |tr[n].pcs| == |tr[0].pcs|
  {
    hide Next, Enabled;
    if n > 0 {
      RunPcs(tr, steps, n - 1);
      assert tr[n - 1 + 1] == Next(tr[n - 1], steps[n - 1]);
      SamePcs(tr[n - 1], steps[n - 1]);
    }
  }

  /** One round of piperead: it waits while nothing is in the pipe and a writer may come, and then takes
      bytes in the order in which they were stored, until there are enough or none is left. */
  lemma ReadRound(tr: seq<State>, steps: seq<Step>, n: nat, p: nat)
    requires IsRun(tr, steps) && n < |steps| && steps[n].Go? && steps[n].p == p && p < |tr[n].pcs| == |tr[n].killed|
    requires tr[n].pcs[p].Testing? || tr[n].pcs[p].Reading?
    ensures var s, t, m := tr[n], tr[n + 1], tr[n].pcs[p].n;
            && p < |t.pcs| && |s.taken| <= |s.put|
            && (s.pcs[p].Testing? ==>
                  && t.taken == s.taken && t.out == s.out
                  && t.pcs[p] == if |s.taken| < |s.put| || !s.writeopen then Reading(m, 0)
                                 else if s.killed[p] then Idle else ReaderAsleep(m))
            && (s.pcs[p].Reading? ==>
                  if s.pcs[p].got >= m || |s.taken| == |s.put| then
                    t.pcs[p] == Idle && t.taken == s.taken && t.out == s.out
                  else
                    var x := s.put[|s.taken|];
                    && t.taken == s.taken + [x]
                    && if steps[n].copied then t.pcs[p] == Reading(m, s.pcs[p].got + 1) && t.out == s.out + [x]
                       else t.pcs[p] == Idle && t.out == s.out)
  {
    hide LockOk, Write;
    RunInv(tr, steps, n);
    TestsExact(tr[n]);
    assert tr[n + 1] == Next(tr[n], steps[n]);
  }

  /** The `got` bytes of a read so far were delivered in a row: nobody else has touched the pipe since. */
  ghost predicate Delivered(s: State, t: State, n: nat, got: nat) {
    && |t.taken| == |s.taken| + got && s.taken <= t.taken
    && t.out == s.out + t.taken[|s.taken|..] && t.put == s.put && got <= n
  }

  lemma {:induction false} ReadDelivers(tr: seq<State>, steps: seq<Step>, b: nat, p: nat) returns (a: nat)
    requires IsRun(tr, steps) && b < |tr| && p < |tr[b].pcs| && tr[b].pcs[p].Reading?
    ensures a <= b && p < |tr[a].pcs| && tr[a].pcs[p] == Reading(tr[b].pcs[p].n, 0)
    ensures Delivered(tr[a], tr[b], tr[b].pcs[p].n, tr[b].pcs[p].got)
  {
    hide RingOk, LockOk, Next, Enabled, Delivered;
    if tr[b].pcs[p].got == 0 {
      a := b;
      DeliveredNone(tr[b], tr[b].pcs[p].n);
    } else {
      assert b > 0;
      var s, step := tr[b - 1], steps[b - 1];
      assert tr[b - 1 + 1] == Next(s, step);
      RunInv(tr, steps, b - 1);
      ReadingStep(s, step, p);
      a := ReadDelivers(tr, steps, b - 1, p);
      DeliveredMore(tr[a], s, tr[b], tr[b].pcs[p].n, s.pcs[p].got, tr[b].pcs[p].got);
    }
  }

  lemma DeliveredNone(s: State, n: nat)
    ensures Delivered(s, s, n, 0)
  {
  }

  lemma DeliveredMore(s: State, t: State, u: State, n: nat, got: nat, got': nat)
    requires Delivered(s, t, n, got) && u.put == t.put && (got' == got || got' <= n)
    requires || (got' == got && u.taken == t.taken && u.out == t.out)
             || (got' == got + 1 && |u.taken| == |t.taken| + 1 && t.taken <= u.taken
                 && u.out == t.out + [u.taken[|t.taken|]])
    ensures Delivered(s, u, n, got')
  {
    if got' == got + 1 {
      assert u.taken[|s.taken|..] == t.taken[|s.taken|..] + [u.taken[|t.taken|]];
    }
  }

  /** A reader that has a byte was reading before. */
  lemma ReadingStep(s: State, step: Step, p: nat)
    requires Inv(s) && Enabled(s, step) && p < |Next(s, step).pcs| && Next(s, step).pcs[p].Reading?
             && Next(s, step).pcs[p].got > 0
    ensures var t := Next(s, step);
            && p < |s.pcs| && s.pcs[p].Reading? && s.pcs[p].n == t.pcs[p].n && t.put == s.put
            && if t.pcs[p].got == s.pcs[p].got then t.taken == s.taken && t.out == s.out
               else && t.pcs[p].got == s.pcs[p].got + 1 <= t.pcs[p].n && |t.taken| == |s.taken| + 1
                    && s.taken <= t.taken && t.out == s.out + [t.taken[|s.taken|]]
  {
    hide RingOk, Full, Empty, LockOk, Read, Write;
    LockHolder(s);
    SamePcs(s, step);
    if step.Go? && s.pcs[step.p].Reading? {
      ReadTakes(s, step, p);
    } else if step.Go? && s.pcs[step.p].Writing? {
      WriteTakesNone(s, step, p);
    }
  }

  lemma ReadTakes(s: State, step: Step, p: nat)
    requires Enabled(s, step) && step.Go? && s.pcs[step.p].Reading? && p < |s.pcs|
    ensures var t := Next(s, step);
            && t.put == s.put && |t.pcs| == |s.pcs| && (p != step.p && t.pcs[p].Reading? ==> s.pcs[p].Reading?)
            && (p == step.p && t.pcs[p].Reading? ==>
                  && t.pcs[p].n == s.pcs[p].n && t.pcs[p].got == s.pcs[p].got + 1 <= t.pcs[p].n
                  && |t.taken| == |s.taken| + 1 && s.taken <= t.taken && t.out == s.out + [t.taken[|s.taken|]])
  {
    hide Full, Empty, Write;
  }

  lemma WriteTakesNone(s: State, step: Step, p: nat)
    requires Enabled(s, step) && step.Go? && s.pcs[step.p].Writing? && p < |s.pcs|
    ensures var t := Next(s, step); |t.pcs| == |s.pcs| && (t.pcs[p].Reading? ==> s.pcs[p].Reading?)
  {
    hide Full, Empty, Read;
  }

  /** A killed process, one that a kill has hit before, is not asleep in the pipe. */
  lemma {:induction false} KilledAwake(tr: seq<State>, steps: seq<Step>, n: nat, p: nat)
    requires IsRun(tr, steps) && n < |tr| && p < |tr[n].pcs|
    ensures p < |tr[n].killed| && (tr[n].killed[p] <==> exists m :: 0 <= m < n && steps[m] == Kill(p))
    ensures tr[n].killed[p] ==> !tr[n].pcs[p].ReaderAsleep? && !tr[n].pcs[p].WriterAsleep?
  {
    hide Next, Enabled;
    if n > 0 {
      var s, step := tr[n - 1], steps[n - 1];
      assert tr[n - 1 + 1] == Next(s, step);
      SamePcs(s, step);
      KilledAwake(tr, steps, n - 1, p);
      KilledNext(s, step, p);
    }
  }

  /** Killed processes, and where they are. */
  ghost predicate Awake(s: State, p: nat) {
    p < |s.pcs| == |s.killed| && (s.killed[p] ==> !s.pcs[p].ReaderAsleep? && !s.pcs[p].WriterAsleep?)
  }

  lemma KilledNext(s: State, step: Step, p: nat)
    requires Enabled(s, step) && Awake(s, p)
    ensures var t := Next(s, step); Awake(t, p) && (t.killed[p] <==> s.killed[p] || step == Kill(p))
  {
    hide Full, Empty, Read, Write;
    if step.Go? && s.pcs[step.p].Writing? {
      KilledWrite(s, step, p);
    } else if step.Go? && s.pcs[step.p].Reading? {
      KilledRead(s, step, p);
    }
  }

  lemma KilledWrite(s: State, step: Step, p: nat)
    requires Enabled(s, step) && Awake(s, p) && step.Go? && s.pcs[step.p].Writing?
    ensures var t := Next(s, step); Awake(t, p) && t.killed == s.killed
  {
    hide Full, Empty, Read;
  }

  lemma KilledRead(s: State, step: Step, p: nat)
    requires Enabled(s, step) && Awake(s, p) && step.Go? && s.pcs[step.p].Reading?
    ensures var t := Next(s, step); Awake(t, p) && t.killed == s.killed
  {
    hide Full, Empty, Write;
  }

  ghost predicate AllReadersOk(tr: seq<State>, n: nat)
    requires n <= |tr|
  {
    forall i | 0 <= i < n :: ReadersOk(tr[i])
  }

  /** Throughout a run a sleeping reader means an empty, open pipe, exactly if no step of the run
      abandons a sleeping reader. */
  lemma SleepingReadersIff(tr: seq<State>, steps: seq<Step>)
    requires IsRun(tr, steps)
    ensures AllReadersOk(tr, |tr|) <==> forall i | 0 <= i < |steps| :: !Abandons(tr[i], steps[i])
  {
    hide Inv, ReadersOk, Next, Enabled, Abandons;
    forall i | 0 <= i < |steps| && ReadersOk(tr[i]) ensures ReadersOk(tr[i + 1]) <==> !Abandons(tr[i], steps[i]) {
      RunInv(tr, steps, i);
      StepReaders(tr[i], steps[i]);
    }
    if forall i | 0 <= i < |steps| :: !Abandons(tr[i], steps[i]) {
      NeverAbandoned(tr, steps, |tr| - 1);
    } else {
      var i :| 0 <= i < |steps| && Abandons(tr[i], steps[i]);
      assert !(ReadersOk(tr[i]) && ReadersOk(tr[i + 1]));
    }
  }

  lemma NeverAbandoned(tr: seq<State>, steps: seq<Step>, n: nat)
    requires IsRun(tr, steps) && n < |tr| && forall i | 0 <= i < |steps| :: !Abandons(tr[i], steps[i])
    ensures AllReadersOk(tr, n + 1)
  {
    hide Inv, ReadersOk, Next, Enabled, Abandons;
    if n == 0 {
      InitOk(|tr[0].pcs|);
    } else {
      NeverAbandoned(tr, steps, n - 1);
      RunInv(tr, steps, n - 1);
      assert tr[n - 1 + 1] == Next(tr[n - 1], steps[n - 1]) && ReadersOk(tr[n - 1]);
      StepReaders(tr[n - 1], steps[n - 1]);
    }
  }

  // ---------- a reader left asleep ----------

  ghost predicate Reachable(s: State) {
    exists tr: seq<State>, steps: seq<Step> :: IsRun(tr, steps) && tr[|tr| - 1] == s
  }

  lemma ReachNext(s: State, step: Step)
    requires Reachable(s) && Enabled(s, step)
    ensures Reachable(Next(s, step))
  {
    hide Next, Enabled;
    var tr: seq<State>, steps: seq<Step> :| IsRun(tr, steps) && tr[|tr| - 1] == s;
    var tr', steps' := tr + [Next(s, step)], steps + [step];
    forall i | 0 <= i < |steps'| ensures Enabled(tr'[i], steps'[i]) && tr'[i + 1] == Next(tr'[i], steps'[i]) {
      if i < |steps| {
        assert tr'[i] == tr[i] && tr'[i + 1] == tr[i + 1];
      }
    }
    assert IsRun(tr', steps') && tr'[|tr'| - 1] == Next(s, step);
  }

  /** Process 0 asleep in a read, process 1 writing, with `k` bytes stored since. */
  ghost predicate Stored(s: State, src: seq<Byte>, k: nat) {
    && |s.data| == PIPESIZE && s.nread == 0 && s.nwrite == k && s.readopen && s.writeopen && s.lock == Some(1)
    && s.pcs == [ReaderAsleep(1), Writing(src, k)] && s.killed == [false, false]
  }

  lemma {:induction false} StoreAll(src: seq<Byte>, k: nat) returns (s: State)
    requires k <= PIPESIZE < |src|
    ensures Reachable(s) && Stored(s, src, k)
  {
    hide Reachable, IsRun;
    if k == 0 {
      s := Init(2);
      assert Reachable(s) by { InitReachable(2); }
      ReachNext(s, StartRead(0, 1));
      s := Next(s, StartRead(0, 1));
      ReachNext(s, Go(0, true));
      s := Next(s, Go(0, true));
      ReachNext(s, StartWrite(1, src));
      s := Next(s, StartWrite(1, src));
    } else {
      s := StoreAll(src, k - 1);
      ReachNext(s, Go(1, true));
      s := Next(s, Go(1, true));
    }
  }

  lemma InitReachable(n: nat)
    ensures Reachable(Init(n))
  {
    assert IsRun([Init(n)], []);
  }

  /** A writer killed while it fills the pipe leaves a reader asleep on a full pipe. */
  lemma KilledWriterLeavesReader() returns (s: State)
    ensures Reachable(s) && s.lock == None && Full(s) && !Empty(s)
    ensures |s.pcs| == 2 && s.pcs[0].ReaderAsleep? && s.pcs[1].Idle?
  {
    hide Reachable;
    var src: seq<Byte> := seq(PIPESIZE + 1, _ => 0);
    s := StoreAll(src, PIPESIZE);
    ReachNext(s, Kill(1));
    s := Next(s, Kill(1));
    ReachNext(s, Go(1, true));
    s := Next(s, Go(1, true));
  }
}
