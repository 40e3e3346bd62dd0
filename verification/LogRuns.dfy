/** Whole runs of the log protocol: crash safety, freedom from panics, the capacity of
    the log, and the boots on which the buffer reference counts go wrong. */
module LogRuns {
  import opened Prelude
  import opened Blocks
  import opened LogFormat
  import opened LogProtocol
  import LogLayer

  /** An assumption about what the processes do. */
  type Policy = (State, Step) -> bool

  ghost predicate StepTo(l: Layout, s: State, step: Step, t: State, ok: Policy) {
    Fits(l, s.disk) && Loggable(l, s.lh) && Enabled(l, s, step) && ok(s, step) && t == Next(l, s, step)
  }

  /** `tr` is a run: `steps[i]` leads from `tr[i]` to `tr[i + 1]`. */
  ghost predicate IsRun(l: Layout, tr: seq<State>, steps: seq<Step>, ok: Policy) {
    |tr| == |steps| + 1 && forall i | 0 <= i < |steps| :: StepTo(l, tr[i], steps[i], tr[i + 1], ok)
  }

  /** Any boot starts from a state like this one. */
  lemma InitInv(l: Layout, d: Disk, header: seq<nat>)
    requires Fits(l, d) && Loggable(l, header)
    ensures Inv(l, Rebooted(d, header))
  {
  }

  lemma {:induction false} RunKeepsInv(l: Layout, tr: seq<State>, steps: seq<Step>, ok: Policy, n: nat)
    requires IsRun(l, tr, steps, ok) && Inv(l, tr[0]) && n <= |steps|
    requires forall x, step | ok(x, step) :: Sound(x, step)
    ensures Inv(l, tr[n])
  {
    hide Inv;
    if n > 0 {
      RunKeepsInv(l, tr, steps, ok, n - 1);
      assert StepTo(l, tr[n - 1], steps[n - 1], tr[n - 1 + 1], ok);
      StepRefines(l, tr[n - 1], steps[n - 1]);
    }
  }

  /** A step leaves the durable state alone, or makes the whole volatile state durable
      while no operation is active. */
  lemma DurableStep(l: Layout, s: State, step: Step, t: State, ok: Policy)
    requires Inv(l, s) && StepTo(l, s, step, t, ok) && Sound(s, step)
    ensures Inv(l, t)
    ensures || Abs(l, t).durable == Abs(l, s).durable
            || (t.ops.Keys == {} && Abs(l, t).durable == Abs(l, t).volatile)
  {
    StepRefines(l, s, step);
    SpecDurable(Abs(l, s), Label(s, step), Abs(l, t));
  }

  lemma SpecDurable(a: Spec, e: Event, a': Spec)
    requires SpecNext(a, e, a')
    ensures a'.durable == a.durable || (a'.active == {} && a'.durable == a'.volatile)
  {
  }

  /** Crash safety and group commit over whole runs: whatever interleaving, crashes and
      reboots a run contains, what a recovery would now leave in the home blocks is what
      reads returned at some moment of the run when no operation was active.  So an
      operation's writes are durable together or not at all. */
  lemma {:induction false} DurableIsQuiescent(l: Layout, tr: seq<State>, steps: seq<Step>, ok: Policy, n: nat)
    returns (k: nat)
    requires IsRun(l, tr, steps, ok) && n <= |steps|
    requires Inv(l, tr[0]) && Booting(tr[0])
    requires forall x, step | ok(x, step) :: Sound(x, step)
    ensures Inv(l, tr[n])
    ensures k <= n && Inv(l, tr[k]) && tr[k].ops == map[] && Abs(l, tr[n]).durable == Abs(l, tr[k]).volatile
  {
    hide Inv, Enabled, Next, Abs, Sound, StepTo, Booting;
    if n == 0 {
      k := 0;
      BootQuiet(l, tr[0]);
    } else {
      k := DurableIsQuiescent(l, tr, steps, ok, n - 1);
      assert StepTo(l, tr[n - 1], steps[n - 1], tr[n - 1 + 1], ok);
      AllowedSound(l, tr[n - 1], steps[n - 1], tr[n], ok);
      DurableStep(l, tr[n - 1], steps[n - 1], tr[n], ok);
      InvShape(l, tr[n]);
      InvShape(l, tr[n - 1]);
      if Abs(l, tr[n]).durable != Abs(l, tr[n - 1]).durable {
        k := n;
      }
    }
  }

  lemma InvShape(l: Layout, s: State)
    requires Inv(l, s)
    ensures Fits(l, s.disk) && Loggable(l, s.lh) && Loggable(l, s.header)
  {
  }

  lemma BootQuiet(l: Layout, s: State)
    requires Inv(l, s) && Booting(s)
    ensures s.ops == map[] && Fits(l, s.disk) && Loggable(l, s.header) && Abs(l, s).durable == Abs(l, s).volatile
  {
  }

  lemma AllowedSound(l: Layout, s: State, step: Step, t: State, ok: Policy)
    requires StepTo(l, s, step, t, ok) && forall x, step | ok(x, step) :: Sound(x, step)
    ensures Sound(s, step)
  {
    hide Sound, Enabled, Next;
  }

  /** A reader or writer that holds a filled buffer sees the latest contents. */
  lemma ReadsAreCoherent(l: Layout, s: State, p: Pid, b: nat)
    requires Inv(l, s) && !Booting(s) && Held(s, p, b) && s.bufs[b].valid
    ensures b in Abs(l, s).volatile && s.bufs[b].data == Abs(l, s).volatile[b]
  {
  }

  /** A logged block stays cached until it is installed. */
  lemma LoggedStaysCached(l: Layout, s: State, b: nat)
    requires Inv(l, s) && Up(s) && !s.replayed && Pinned(s.pc, s.lh, b)
    ensures b in s.bufs && s.bufs[b].valid && !Enabled(l, s, Evict(b))
  {
  }

  // ---------- panics ----------

  /** end_op never finds a commit under way, and log_write never runs outside an operation. */
  lemma NoProtocolPanic(l: Layout, s: State, step: Step)
    requires Inv(l, s) && Enabled(l, s, step) && s.fault == NoFault
    ensures Next(l, s, step).fault in {NoFault, TooBig} && (!step.LogWrite? ==> Next(l, s, step).fault == NoFault)
  {
    if step.EndOp? || step.LogWrite? {
      assert step.p in s.ops;
      assert s.ops != map[];
    }
  }

  /** Log space promised to the active operations with pid below `n` and not used yet. */
  function Slack(ops: map<Pid, set<nat>>, n: nat): (r: int)
    requires n <= NPROC
  {
    if n == 0 then 0
    else Slack(ops, n - 1) + if n - 1 in ops then MAXOPBLOCKS - |ops[n - 1]| else 0
  }

  ghost predicate Reserved(s: State) {
    && (forall p | p in s.ops :: |s.ops[p]| <= MAXOPBLOCKS && forall b | b in s.ops[p] :: b in s.lh)
    && |s.lh| + Slack(s.ops, NPROC) <= LOGSIZE
  }

  /** Changing one operation changes the total by that operation's share. */
  lemma {:induction false} SlackChange(ops: map<Pid, set<nat>>, ops': map<Pid, set<nat>>, q: Pid, n: nat)
    requires n <= NPROC
    requires forall p: Pid | p != q :: (p in ops <==> p in ops') && (p in ops ==> ops[p] == ops'[p])
    ensures Slack(ops', n) - Slack(ops, n) ==
            if n <= q then 0
            else (if q in ops' then MAXOPBLOCKS - |ops'[q]| else 0) - (if q in ops then MAXOPBLOCKS - |ops[q]| else 0)
  {
    if n > 0 {
      SlackChange(ops, ops', q, n - 1);
    }
  }

  lemma {:induction false} SlackBound(ops: map<Pid, set<nat>>)
    requires forall p | p in ops :: |ops[p]| <= MAXOPBLOCKS
    ensures 0 <= Slack(ops, NPROC) <= MAXOPBLOCKS * |ops|
    decreases |ops|
  {
    if ops == map[] {
      SlackNone(NPROC);
    } else {
      var p :| p in ops;
      assert (ops - {p}).Keys == ops.Keys - {p};
      SlackChange(ops, ops - {p}, p, NPROC);
      SlackBound(ops - {p});
    }
  }

  lemma {:induction false} SlackNone(n: nat)
    requires n <= NPROC
    ensures Slack(map[], n) == 0
  {
    if n > 0 {
      SlackNone(n - 1);
    }
  }

  /** An operation logs at most MAXOPBLOCKS different blocks. */
  predicate Within(s: State, step: Step) {
    Sound(s, step) && (step.LogWrite? && step.p in s.ops ==> |s.ops[step.p] + {step.b}| <= MAXOPBLOCKS)
  }

  /** ... and logs none of them again once it has logged that many. */
  predicate Sparing(s: State, step: Step) {
    Within(s, step) && (step.LogWrite? && step.p in s.ops ==> |s.ops[step.p]| < MAXOPBLOCKS)
  }

  /** log_write with the log full: it tests for room before it looks whether the block is listed. */
  predicate AtFull(s: State, step: Step) {
    step.LogWrite? && |s.lh| >= LOGSIZE
  }

  lemma ReservedBegin(s: State, p: Pid)
    requires Reserved(s) && s.outstanding == |s.ops| && p !in s.ops
    requires |s.lh| + (s.outstanding + 1) * MAXOPBLOCKS <= LOGSIZE
    ensures Reserved(s.(outstanding := s.outstanding + 1, ops := s.ops[p := {}]))
  {
    SlackBound(s.ops);
    SlackChange(s.ops, s.ops[p := {}], p, NPROC);
  }

  lemma ReservedLogWrite(s: State, t: State, p: Pid, b: nat)
    requires Reserved(s) && p in s.ops && |s.ops[p] + {b}| <= MAXOPBLOCKS
    requires t.lh == LogLayer.Absorb(s.lh, b) && t.ops == s.ops[p := s.ops[p] + {b}]
    ensures Reserved(t)
  {
    SlackChange(s.ops, t.ops, p, NPROC);
    assert b in s.ops[p] ==> s.ops[p] + {b} == s.ops[p];
    assert b !in s.ops[p] ==> |s.ops[p] + {b}| == |s.ops[p]| + 1;
  }

  lemma ReservedEnd(s: State, t: State, p: Pid)
    requires Reserved(s) && p in s.ops && t.lh == s.lh && t.ops == s.ops - {p}
    ensures Reserved(t)
  {
    SlackChange(s.ops, t.ops, p, NPROC);
  }

  lemma ReservedIdle(t: State)
    requires t.ops == map[] && |t.lh| <= LOGSIZE
    ensures Reserved(t)
  {
    SlackBound(t.ops);
  }

  lemma ReservedSame(s: State, t: State)
    requires Reserved(s) && t.lh == s.lh && t.ops == s.ops
    ensures Reserved(t)
  {
  }

  /** The reservation made by begin_op covers every block an operation may still log. */
  lemma ReservedStep(l: Layout, s: State, step: Step)
    requires Inv(l, s) && Enabled(l, s, step) && Within(s, step) && Reserved(s)
    ensures Reserved(Next(l, s, step))
  {
    hide Reserved;
    var t := Next(l, s, step);
    match step
    case BeginOp(p) => ReservedBegin(s, p);
    case LogWrite(p, b) =>
      if t.fault == NoFault {
        ReservedLogWrite(s, t, p, b);
      } else {
        ReservedSame(s, t);
      }
    case EndOp(p) => ReservedEnd(s, t, p);
    case Commit => ReservedLogStep(l, s);
    case Boot => ReservedLogStep(l, s);
    case Crash => ReservedIdle(t);
    case _ => ReservedSame(s, t);
  }

  lemma ReservedLogStep(l: Layout, s: State)
    requires Inv(l, s) && s.pc != Idle
    ensures Reserved(LogStep(l, s))
  {
    ReservedIdle(LogStep(l, s));
  }

  /** With room for LOGSIZE data blocks, log_write cannot panic for an operation that has
      reservation left. */
  lemma LogWriteFits(l: Layout, s: State, p: Pid, b: nat)
    requires Inv(l, s) && Reserved(s) && Enabled(l, s, LogWrite(p, b)) && |s.ops[p]| < MAXOPBLOCKS
    requires l.size - 1 >= LOGSIZE
    ensures Next(l, s, LogWrite(p, b)).fault == NoFault
  {
    var rest := s.ops - {p};
    SlackChange(s.ops, rest, p, NPROC);
    SlackBound(rest);
    NoProtocolPanic(l, s, LogWrite(p, b));
  }

  /** With that room, log_write panics exactly if the log is full, and then only for a block that its
      operation has logged before. */
  lemma LogWritePanicsIff(l: Layout, s: State, p: Pid, b: nat)
    requires Inv(l, s) && Reserved(s) && Enabled(l, s, LogWrite(p, b)) && Within(s, LogWrite(p, b))
             && l.size - 1 >= LOGSIZE
    ensures Next(l, s, LogWrite(p, b)).fault == NoFault <==> |s.lh| < LOGSIZE
    ensures |s.lh| <= LOGSIZE && (|s.lh| == LOGSIZE ==> b in s.ops[p])
  {
    NoProtocolPanic(l, s, LogWrite(p, b));
    SlackBound(s.ops);
    assert b !in s.ops[p] ==> |s.ops[p] + {b}| == |s.ops[p]| + 1;
    if |s.ops[p]| < MAXOPBLOCKS {
      LogWriteFits(l, s, p, b);
    }
  }

  // ---------- reachability ----------

  ghost predicate Reach(l: Layout, s: State, t: State, ok: Policy) {
    exists tr, steps :: IsRun(l, tr, steps, ok) && tr[0] == s && tr[|steps|] == t
  }

  lemma ReachSelf(l: Layout, s: State, ok: Policy)
    ensures Reach(l, s, s, ok)
  {
    assert IsRun(l, [s], [], ok);
  }

  lemma ReachStep(l: Layout, s: State, t: State, step: Step, u: State, ok: Policy)
    requires Reach(l, s, t, ok) && StepTo(l, t, step, u, ok)
    ensures Reach(l, s, u, ok)
  {
    var tr, steps :| IsRun(l, tr, steps, ok) && tr[0] == s && tr[|steps|] == t;
    var tr', steps' := tr + [u], steps + [step];
    forall i | 0 <= i < |steps'| ensures StepTo(l, tr'[i], steps'[i], tr'[i + 1], ok) {
      if i < |steps| {
        assert StepTo(l, tr[i], steps[i], tr[i + 1], ok);
      }
    }
    assert IsRun(l, tr', steps', ok);
  }

  /** A boot that finds an empty log. */
  lemma CleanBoot(l: Layout, d: Disk, ok: Policy)
    requires Fits(l, d)
    requires forall x | Booting(x) :: ok(x, Boot)
    ensures Reach(l, Rebooted(d, []), Rebooted(d, []).(pc := Idle), ok)
  {
    var s := Rebooted(d, []);
    ReachSelf(l, s, ok);
    ReachStep(l, s, s, Boot, s.(pc := Install(0, true)), ok);
    ReachStep(l, s, s.(pc := Install(0, true)), Boot, s.(pc := Clear(true)), ok);
    ReachStep(l, s, s.(pc := Clear(true)), Boot, s.(pc := Idle), ok);
  }

  /** Process `p` reads a block that is not cached, without changing it. */
  lemma Fetch(l: Layout, s0: State, s: State, p: Pid, b: nat, ok: Policy)
    requires Reach(l, s0, s, ok) && Fits(l, s.disk) && Loggable(l, s.lh) && Up(s) && Home(l, b) && b !in s.bufs
    requires forall x, step: Step | Up(x) && !x.replayed && (step.Bget? || step.Lock? || step.Fill?) :: ok(x, step)
    requires !s.replayed
    ensures Reach(l, s0, s.(bufs := s.bufs[b := Buf(true, s.disk[b], 1, By(p), {p})]), ok)
  {
    var s1 := s.(bufs := s.bufs[b := Buf(false, s.disk[b], 1, Free, {p})]);
    var s2 := s.(bufs := s.bufs[b := Buf(false, s.disk[b], 1, By(p), {p})]);
    var s3 := s.(bufs := s.bufs[b := Buf(true, s.disk[b], 1, By(p), {p})]);
    ReachStep(l, s0, s, Bget(p, b), s1, ok);
    ReachStep(l, s0, s1, Lock(p, b), s2, ok);
    ReachStep(l, s0, s2, Fill(p, b), s3, ok);
  }

  // ---------- the capacity of the log ----------

  /** Three operations are active and have logged the first `k` blocks after the log area
      between them, ten each. */
  ghost predicate Filling(l: Layout, d: Disk, s: State, k: nat) {
    && Up(s) && !s.replayed && s.pc == Idle && s.disk == d && s.unlogged == {} && s.outstanding == 3
    && l.start + l.size + k <= |d| && |s.lh| == k && (forall i | 0 <= i < k :: s.lh[i] == l.start + l.size + i)
    && (forall b | b in s.bufs :: b < l.start + l.size + k)
    && 0 in s.ops && 1 in s.ops && 2 in s.ops
    && |s.ops[0]| <= k && |s.ops[1]| <= (if k < 10 then 0 else k - 10) && |s.ops[2]| <= (if k < 20 then 0 else k - 20)
    && (k > 20 ==> s.lh[k - 1] in s.ops[2] && s.lh[k - 1] in s.bufs
                   && s.bufs[s.lh[k - 1]] == Buf(true, d[s.lh[k - 1]], 1, Free, {}))
  }

  /** The next block fits: log it and let it go. */
  lemma FillNext(l: Layout, d: Disk, s: State, p: Pid, b: nat, t: State)
    requires Fits(l, d) && Filling(l, d, s, |s.lh|)
    requires |s.lh| < LOGSIZE && |s.lh| < l.size - 1 && p == |s.lh| / 10 && b == l.start + l.size + |s.lh| < l.total
    requires t == s.(lh := s.lh + [b], bufs := s.bufs[b := Buf(true, d[b], 1, Free, {})],
                     ops := s.ops[p := s.ops[p] + {b}])
    ensures Filling(l, d, t, |s.lh| + 1)
  {
  }

  /** The fetched block is logged and released, or the log is full. */
  lemma LogFetched(l: Layout, s: State, p: Pid, b: nat, data: Block)
    requires Up(s) && !s.replayed && p in s.ops && |s.ops[p]| < MAXOPBLOCKS && s.outstanding > 0 && s.unlogged == {}
    requires Fits(l, s.disk) && Loggable(l, s.lh) && b !in s.lh && b !in s.bufs && |s.lh| < LOGSIZE
    ensures var s1 := s.(bufs := s.bufs[b := Buf(true, data, 1, By(p), {p})]);
            var s2 := s1.(lh := s.lh + [b], ops := s.ops[p := s.ops[p] + {b}],
                          bufs := s.bufs[b := Buf(true, data, 2, By(p), {p})]);
            var s3 := s2.(bufs := s.bufs[b := Buf(true, data, 1, Free, {})]);
            && (|s.lh| >= l.size - 1 ==> StepTo(l, s1, LogWrite(p, b), s1.(fault := TooBig), Sparing))
            && (|s.lh| < l.size - 1 ==> StepTo(l, s1, LogWrite(p, b), s2, Sparing))
            && (Loggable(l, s2.lh) ==> StepTo(l, s2, Brelse(p, b), s3, Sparing))
  {
    var s2 := s.(lh := s.lh + [b], ops := s.ops[p := s.ops[p] + {b}],
                 bufs := s.bufs[b := Buf(true, data, 2, By(p), {p})]);
    assert s2.bufs[b].users - {p} == {};
  }

  lemma FillOne(l: Layout, d: Disk, s0: State, s: State, k: nat) returns (t: State)
    requires Fits(l, d) && Reach(l, s0, s, Sparing) && Filling(l, d, s, k)
    requires k < LOGSIZE && k < l.size && l.start + l.size + k < l.total
    ensures Reach(l, s0, t, Sparing)
    ensures k < l.size - 1 ==> Filling(l, d, t, k + 1)
    ensures k == l.size - 1 ==> t.fault == TooBig
  {
    hide Next, Enabled, StepTo, Reach;
    var p: Pid, b := k / 10, l.start + l.size + k;
    assert Loggable(l, s.lh) && b !in s.lh;
    Fetch(l, s0, s, p, b, Sparing);
    LogFetched(l, s, p, b, d[b]);
    var s1 := s.(bufs := s.bufs[b := Buf(true, d[b], 1, By(p), {p})]);
    if k < l.size - 1 {
      t := s.(lh := s.lh + [b], bufs := s.bufs[b := Buf(true, d[b], 1, Free, {})], ops := s.ops[p := s.ops[p] + {b}]);
      var s2 := t.(bufs := s.bufs[b := Buf(true, d[b], 2, By(p), {p})]);
      ReachStep(l, s0, s1, LogWrite(p, b), s2, Sparing);
      assert Loggable(l, s2.lh);
      ReachStep(l, s0, s2, Brelse(p, b), t, Sparing);
      FillNext(l, d, s, p, b, t);
    } else {
      t := s1.(fault := TooBig);
      ReachStep(l, s0, s1, LogWrite(p, b), t, Sparing);
    }
  }

  lemma {:induction false} FillAll(l: Layout, d: Disk, s0: State, s: State, k: nat) returns (t: State)
    requires Fits(l, d) && Reach(l, s0, s, Sparing) && Filling(l, d, s, k)
    requires k < l.size && k <= LOGSIZE && l.start + l.size + LOGSIZE <= l.total
    ensures Reach(l, s0, t, Sparing) && if l.size <= LOGSIZE then t.fault == TooBig else Filling(l, d, t, LOGSIZE)
    decreases l.size - k
  {
    if k == LOGSIZE {
      t := s;
    } else {
      t := FillOne(l, d, s0, s, k);
      if k < l.size - 1 {
        t := FillAll(l, d, s0, t, k + 1);
      }
    }
  }

  lemma StartThree(l: Layout, d: Disk) returns (s: State)
    requires Fits(l, d)
    ensures Reach(l, Rebooted(d, []), s, Sparing) && Filling(l, d, s, 0)
  {
    var s0 := Rebooted(d, []);
    CleanBoot(l, d, Sparing);
    var s1 := s0.(pc := Idle);
    var s2 := s1.(outstanding := 1, ops := map[0 := {}]);
    var s3 := s1.(outstanding := 2, ops := map[0 := {}, 1 := {}]);
    s := s1.(outstanding := 3, ops := map[0 := {}, 1 := {}, 2 := {}]);
    ReachStep(l, s0, s1, BeginOp(0), s2, Sparing);
    ReachStep(l, s0, s2, BeginOp(1), s3, Sparing);
    ReachStep(l, s0, s3, BeginOp(2), s, Sparing);
  }

  lemma {:induction false} NoPanic(l: Layout, tr: seq<State>, steps: seq<Step>, n: nat)
    requires IsRun(l, tr, steps, Sparing) && n <= |steps| && l.size - 1 >= LOGSIZE
    requires Inv(l, tr[0]) && Reserved(tr[0]) && tr[0].fault == NoFault
    ensures Inv(l, tr[n]) && Reserved(tr[n]) && tr[n].fault == NoFault
  {
    hide Inv, Reserved, Enabled, Next, Sparing;
    if n > 0 {
      NoPanic(l, tr, steps, n - 1);
      assert StepTo(l, tr[n - 1], steps[n - 1], tr[n - 1 + 1], Sparing);
      NoPanicStep(l, tr[n - 1], steps[n - 1]);
    }
  }

  lemma StepSound(l: Layout, s: State, step: Step)
    requires Inv(l, s) && Enabled(l, s, step) && Sound(s, step)
    ensures Fits(l, s.disk) && Loggable(l, s.lh) && Inv(l, Next(l, s, step))
  {
    hide Inv, Next, Abs, Enabled, SpecNext;
    StepRefines(l, s, step);
  }

  lemma NoPanicStep(l: Layout, s: State, step: Step)
    requires Inv(l, s) && Reserved(s) && s.fault == NoFault && l.size - 1 >= LOGSIZE
    requires Enabled(l, s, step) && Sparing(s, step)
    ensures var t := Next(l, s, step); Inv(l, t) && Reserved(t) && t.fault == NoFault
  {
    hide Inv, Reserved, Refines, Next;
    StepSound(l, s, step);
    ReservedStep(l, s, step);
    NoProtocolPanic(l, s, step);
    if step.LogWrite? {
      LogWriteFits(l, s, step.p, step.b);
    }
  }

  /** The usable capacity: operations that stay within their reservation, and log no block again at its
      limit, never panic if and only if the log area has room for a header and LOGSIZE blocks.  mkfs makes
      it one block smaller. */
  lemma CapacityIff(l: Layout, d: Disk)
    requires Fits(l, d) && l.start + l.size + LOGSIZE <= l.total
    ensures (forall t | Reach(l, Rebooted(d, []), t, Sparing) :: t.fault == NoFault) <==> l.size >= LOGSIZE + 1
  {
    if l.size >= LOGSIZE + 1 {
      forall t | Reach(l, Rebooted(d, []), t, Sparing) ensures t.fault == NoFault {
        var tr, steps :| IsRun(l, tr, steps, Sparing) && tr[0] == Rebooted(d, []) && tr[|steps|] == t;
        InitInv(l, d, []);
        ReservedIdle(tr[0]);
        NoPanic(l, tr, steps, |steps|);
      }
    } else {
      var s := StartThree(l, d);
      var t := FillAll(l, d, Rebooted(d, []), s, 0);
    }
  }

  lemma ReachWeaker(l: Layout, s: State, t: State)
    requires Reach(l, s, t, Sparing)
    ensures Reach(l, s, t, Within)
  {
    var tr, steps :| IsRun(l, tr, steps, Sparing) && tr[0] == s && tr[|steps|] == t;
    forall i | 0 <= i < |steps| ensures StepTo(l, tr[i], steps[i], tr[i + 1], Within) {
      assert StepTo(l, tr[i], steps[i], tr[i + 1], Sparing);
    }
    assert IsRun(l, tr, steps, Within);
  }

  /** With three operations at their limit, logging one of their blocks again is one too many. */
  lemma LogAgain(l: Layout, d: Disk, s0: State, s: State) returns (t: State)
    requires Fits(l, d) && Reach(l, s0, s, Within) && Filling(l, d, s, LOGSIZE) && l.size > LOGSIZE
             && l.start + l.size + LOGSIZE <= l.total
    ensures Reach(l, s0, t, Within) && t.fault == TooBig
  {
    var b := s.lh[LOGSIZE - 1];
    assert Loggable(l, s.lh);
    assert s.ops[2] + {b} == s.ops[2];
    var s1 := s.(bufs := s.bufs[b := Buf(true, d[b], 2, Free, {2})]);
    var s2 := s.(bufs := s.bufs[b := Buf(true, d[b], 2, By(2), {2})]);
    t := s2.(fault := TooBig);
    ReachStep(l, s0, s, Bget(2, b), s1, Within);
    assert s1.bufs[b := Buf(true, d[b], 2, By(2), {2})] == s2.bufs;
    ReachStep(l, s0, s1, Lock(2, b), s2, Within);
    ReachStep(l, s0, s2, LogWrite(2, b), t, Within);
  }

  /** No log is large enough for operations that log their blocks again: whatever its size, operations that
      log ten different blocks each can panic. */
  lemma NoSizeSuffices(l: Layout, d: Disk) returns (t: State)
    requires Fits(l, d) && l.start + l.size + LOGSIZE <= l.total
    ensures Reach(l, Rebooted(d, []), t, Within) && t.fault == TooBig
  {
    var s := StartThree(l, d);
    t := FillAll(l, d, Rebooted(d, []), s, 0);
    ReachWeaker(l, Rebooted(d, []), t);
    if l.size > LOGSIZE {
      t := LogAgain(l, d, Rebooted(d, []), t);
    }
  }

  lemma WithinStep(l: Layout, s: State, step: Step)
    requires Inv(l, s) && Reserved(s) && s.fault == NoFault && l.size - 1 >= LOGSIZE
    requires Enabled(l, s, step) && Within(s, step)
    ensures var t := Next(l, s, step); Inv(l, t) && Reserved(t) && (t.fault == NoFault <==> !AtFull(s, step))
  {
    hide Inv, Reserved, Refines, Next;
    StepSound(l, s, step);
    ReservedStep(l, s, step);
    if step.LogWrite? {
      LogWritePanicsIff(l, s, step.p, step.b);
    } else {
      NoProtocolPanic(l, s, step);
    }
  }

  /** With room for LOGSIZE blocks, a run of operations of at most ten different blocks each is free of panics
      if and only if it never calls log_write while the log is full. */
  lemma NoPanicIff(l: Layout, tr: seq<State>, steps: seq<Step>)
    requires IsRun(l, tr, steps, Within) && l.size - 1 >= LOGSIZE
    requires Inv(l, tr[0]) && Reserved(tr[0]) && tr[0].fault == NoFault
    ensures (forall i | 0 <= i < |tr| :: tr[i].fault == NoFault)
            <==> forall i | 0 <= i < |steps| :: !AtFull(tr[i], steps[i])
  {
    if forall i | 0 <= i < |steps| :: !AtFull(tr[i], steps[i]) {
      forall n | 0 <= n < |tr| ensures tr[n].fault == NoFault {
        BeforeFull(l, tr, steps, n);
      }
    } else {
      FirstFull(tr, steps);
      var i: nat :| i < |steps| && AtFull(tr[i], steps[i]) && forall j | 0 <= j < i :: !AtFull(tr[j], steps[j]);
      BeforeFull(l, tr, steps, i);
      assert StepTo(l, tr[i], steps[i], tr[i + 1], Within);
      WithinStep(l, tr[i], steps[i]);
    }
  }

  lemma FirstFull(tr: seq<State>, steps: seq<Step>)
    requires |tr| == |steps| + 1 && exists i :: 0 <= i < |steps| && AtFull(tr[i], steps[i])
    ensures exists i: nat :: i < |steps| && AtFull(tr[i], steps[i]) && forall j | 0 <= j < i :: !AtFull(tr[j], steps[j])
  {
    var i: nat :| i < |steps| && AtFull(tr[i], steps[i]);
    while exists j :: 0 <= j < i && AtFull(tr[j], steps[j])
      invariant i < |steps| && AtFull(tr[i], steps[i])
      decreases i
    {
      var j: nat :| j < i && AtFull(tr[j], steps[j]);
      i := j;
    }
  }

  lemma {:induction false} BeforeFull(l: Layout, tr: seq<State>, steps: seq<Step>, n: nat)
    requires IsRun(l, tr, steps, Within) && n <= |steps| && l.size - 1 >= LOGSIZE
    requires Inv(l, tr[0]) && Reserved(tr[0]) && tr[0].fault == NoFault
             && forall i | 0 <= i < n :: !AtFull(tr[i], steps[i])
    ensures Inv(l, tr[n]) && Reserved(tr[n]) && tr[n].fault == NoFault
  {
    hide Inv, Reserved, Enabled, Next, Within, AtFull;
    if n > 0 {
      BeforeFull(l, tr, steps, n - 1);
      assert StepTo(l, tr[n - 1], steps[n - 1], tr[n - 1 + 1], Within);
      WithinStep(l, tr[n - 1], steps[n - 1]);
    }
  }

  // ---------- boots that replay a transaction ----------

  /** A listed block's buffer after recovery: the pin that was never taken has been dropped,
      so the count has wrapped round. */
  ghost predicate Wrapped(s: State, b: nat, data: Block) {
    b in s.bufs && s.bufs[b] == Buf(true, data, WRAP - 1, Free, {}) && b < |s.disk| && s.disk[b] == data
  }

  /** Recovery has installed `tail` blocks; everything but the disk and the buffers is as at
      any boot. */
  ghost predicate Recovering(l: Layout, d: Disk, header: seq<nat>, s: State, tail: nat)
    requires Fits(l, d) && Loggable(l, header)
  {
    && tail <= |header| && |s.disk| == |d|
    && s == Rebooted(s.disk, header).(bufs := s.bufs, lh := header, replayed := true, pc := Install(tail, true))
    && (forall b: nat | l.InLog(b) :: s.disk[b] == d[b])
    && (forall i | 0 <= i < tail :: Wrapped(s, header[i], d[l.start + 1 + i]))
    && (forall i | tail <= i < |header| :: header[i] !in s.bufs)
  }

  lemma RecoverOne(l: Layout, d: Disk, header: seq<nat>, s: State, tail: nat)
    requires Fits(l, d) && Loggable(l, header) && tail < |header| && Recovering(l, d, header, s, tail)
    ensures Recovering(l, d, header, LogStep(l, s), tail + 1)
  {
    assert l.InLog(l.start + 1 + tail);
  }

  lemma {:induction false} RecoverAll(l: Layout, d: Disk, header: seq<nat>, s0: State, s: State, tail: nat, ok: Policy)
    returns (t: State)
    requires Fits(l, d) && Loggable(l, header) && header != []
    requires Recovering(l, d, header, s, tail) && Reach(l, s0, s, ok)
    requires forall x | Booting(x) :: ok(x, Boot)
    ensures Reach(l, s0, t, ok) && |t.disk| == |d|
    ensures t == Rebooted(t.disk, []).(bufs := t.bufs, replayed := true, pc := Idle)
    ensures Wrapped(t, header[0], d[l.start + 1])
    decreases |header| - tail
  {
    if tail < |header| {
      RecoverOne(l, d, header, s, tail);
      ReachStep(l, s0, s, Boot, LogStep(l, s), ok);
      t := RecoverAll(l, d, header, s0, LogStep(l, s), tail + 1, ok);
    } else {
      var s1 := s.(lh := [], pc := Clear(true));
      t := s1.(header := [], pc := Idle);
      ReachStep(l, s0, s, Boot, s1, ok);
      ReachStep(l, s0, s1, Boot, t, ok);
      assert Wrapped(s, header[0], d[l.start + 1 + 0]);
    }
  }

  predicate NoCrash(s: State, step: Step) {
    !step.Crash?
  }

  predicate NoCrashNoModify(s: State, step: Step) {
    !step.Crash? && !step.Modify?
  }

  /** After a replay: process 0 is in an operation, and block `b` has this buffer. */
  ghost predicate Updating(l: Layout, s: State, b: nat, buf: Buf, lh: seq<nat>, mine: set<nat>, unlogged: set<nat>) {
    && Fits(l, s.disk) && Home(l, b) && Loggable(l, lh) && b in s.bufs && s.bufs[b] == buf
    && s == Rebooted(s.disk, []).(bufs := s.bufs, replayed := true, pc := Idle, outstanding := 1,
                                  ops := map[0 := mine], lh := lh, unlogged := unlogged)
  }

  lemma StartUpdate(l: Layout, t: State, b: nat, data: Block)
    requires Fits(l, t.disk) && Home(l, b) && Wrapped(t, b, data)
    requires t == Rebooted(t.disk, []).(bufs := t.bufs, replayed := true, pc := Idle)
    ensures var u := t.(outstanding := 1, ops := map[0 := {}]);
            Updating(l, u, b, Buf(true, data, WRAP - 1, Free, {}), [], {}, {}) && StepTo(l, t, BeginOp(0), u, NoCrash)
  {
  }

  lemma GetUpdate(l: Layout, s: State, b: nat, data: Block)
    requires Updating(l, s, b, Buf(true, data, WRAP - 1, Free, {}), [], {}, {})
    ensures var buf := Buf(true, data, 0, Free, {0});
            var u := s.(bufs := s.bufs[b := buf]);
            Updating(l, u, b, buf, [], {}, {}) && StepTo(l, s, Bget(0, b), u, NoCrash)
  {
    assert s.bufs[b].users + {0} == {0};
  }

  lemma LockUpdate(l: Layout, s: State, b: nat, data: Block)
    requires Updating(l, s, b, Buf(true, data, 0, Free, {0}), [], {}, {})
    ensures var buf := Buf(true, data, 0, By(0), {0});
            var u := s.(bufs := s.bufs[b := buf]);
            Updating(l, u, b, buf, [], {}, {}) && StepTo(l, s, Lock(0, b), u, NoCrash)
  {
  }

  lemma ModifyUpdate(l: Layout, s: State, b: nat, data: Block, data': Block)
    requires Updating(l, s, b, Buf(true, data, 0, By(0), {0}), [], {}, {})
    ensures var buf := Buf(true, data', 0, By(0), {0});
            var u := s.(bufs := s.bufs[b := buf], unlogged := {b});
            Updating(l, u, b, buf, [], {}, {b}) && StepTo(l, s, Modify(0, b, data'), u, NoCrash)
  {
  }

  lemma LogUpdate(l: Layout, s: State, b: nat, data': Block)
    requires Updating(l, s, b, Buf(true, data', 0, By(0), {0}), [], {}, {b})
    ensures var buf := Buf(true, data', 1, By(0), {0});
            var u := s.(bufs := s.bufs[b := buf], unlogged := {}, lh := [b], ops := map[0 := {b}]);
            Updating(l, u, b, buf, [b], {b}, {}) && StepTo(l, s, LogWrite(0, b), u, NoCrash)
  {
    assert s.unlogged - {b} == {} && s.ops[0] + {b} == {b};
    assert s.ops[0 := s.ops[0] + {b}] == map[0 := {b}];
    assert LogLayer.Absorb(s.lh, b) == [b];
  }

  lemma ReleaseUpdate(l: Layout, s: State, b: nat, data': Block)
    requires Updating(l, s, b, Buf(true, data', 1, By(0), {0}), [b], {b}, {})
    ensures StepTo(l, s, Brelse(0, b), s.(bufs := s.bufs[b := Buf(true, data', 0, Free, {})]), NoCrash)
  {
    assert s.bufs[b].users - {0} == {};
  }

  /** Process 0 changes block `b` in an operation, logs it and releases it, exactly as it should. */
  lemma ProperUpdate(l: Layout, s0: State, t: State, b: nat, data: Block, data': Block) returns (u: State)
    requires Fits(l, t.disk) && Home(l, b) && Reach(l, s0, t, NoCrash)
    requires t == Rebooted(t.disk, []).(bufs := t.bufs, replayed := true, pc := Idle) && Wrapped(t, b, data)
    ensures Reach(l, s0, u, NoCrash)
    ensures u == t.(outstanding := 1, ops := map[0 := {b}], lh := [b],
                    bufs := t.bufs[b := Buf(true, data', 0, Free, {})])
  {
    hide StepTo, Updating, Reach, Fits, Home, Wrapped;
    StartUpdate(l, t, b, data);
    var t1 := t.(outstanding := 1, ops := map[0 := {}]);
    ReachStep(l, s0, t, BeginOp(0), t1, NoCrash);
    GetUpdate(l, t1, b, data);
    var t2 := t1.(bufs := t1.bufs[b := Buf(true, data, 0, Free, {0})]);
    ReachStep(l, s0, t1, Bget(0, b), t2, NoCrash);
    LockUpdate(l, t2, b, data);
    var t3 := t2.(bufs := t2.bufs[b := Buf(true, data, 0, By(0), {0})]);
    ReachStep(l, s0, t2, Lock(0, b), t3, NoCrash);
    ModifyUpdate(l, t3, b, data, data');
    var t4 := t3.(bufs := t3.bufs[b := Buf(true, data', 0, By(0), {0})], unlogged := {b});
    ReachStep(l, s0, t3, Modify(0, b, data'), t4, NoCrash);
    LogUpdate(l, t4, b, data');
    var t5 := t4.(bufs := t4.bufs[b := Buf(true, data', 1, By(0), {0})], unlogged := {}, lh := [b],
                  ops := map[0 := {b}]);
    ReachStep(l, s0, t4, LogWrite(0, b), t5, NoCrash);
    ReleaseUpdate(l, t5, b, data');
    u := t5.(bufs := t5.bufs[b := Buf(true, data', 0, Free, {})]);
    ReachStep(l, s0, t5, Brelse(0, b), u, NoCrash);
    assert u.bufs == t.bufs[b := Buf(true, data', 0, Free, {})];
  }

  /** ... and yet the buffer may be recycled before the commit, which then logs the old
      contents, */
  lemma LoggedStale(l: Layout, u: State, b: nat, data: Block, data': Block) returns (t: State)
    requires Fits(l, u.disk) && Home(l, b) && u.disk[b] == data
    requires u == Rebooted(u.disk, []).(replayed := true, pc := Idle, outstanding := 1, ops := map[0 := {b}],
                                        lh := [b], bufs := u.bufs)
    requires b in u.bufs && u.bufs[b] == Buf(true, data', 0, Free, {})
    ensures Reach(l, u, t, NoCrashNoModify)
    ensures t == u.(outstanding := 0, ops := map[], committing := true, disk := u.disk[l.start + 1 := data],
                    bufs := (u.bufs - {b})[b := Buf(true, data, 0, Free, {})], pc := WriteLog(1))
  {
    var ok := NoCrashNoModify;
    var u1 := u.(bufs := u.bufs - {b});
    var u2 := u1.(outstanding := 0, ops := map[], committing := true, pc := WriteLog(0));
    t := u2.(disk := u.disk[l.start + 1 := data], bufs := u1.bufs[b := Buf(true, data, 0, Free, {})],
             pc := WriteLog(1));
    ReachSelf(l, u, ok);
    ReachStep(l, u, u, Evict(b), u1, ok);
    assert u1.ops - {0} == map[];
    ReachStep(l, u, u1, EndOp(0), u2, ok);
    ReachStep(l, u, u2, Step.Commit, t, ok);
  }

  /** The commit of a transaction whose only block is `b`. */
  ghost predicate Committing(l: Layout, s: State, b: nat) {
    Fits(l, s.disk) && Home(l, b) && s.lh == [b] && s.fault == NoFault && s.committing && s.ops == map[] && b in s.bufs
  }

  lemma HeaderStep(l: Layout, s: State, b: nat)
    requires Committing(l, s, b) && s.pc == WriteLog(1)
    ensures StepTo(l, s, Step.Commit, s.(header := [b], pc := Install(0, false)), NoCrashNoModify)
  {
  }

  lemma InstallStep(l: Layout, s: State, b: nat, data: Block)
    requires Committing(l, s, b) && s.pc == Install(0, false)
    requires s.bufs[b] == Buf(true, data, 0, Free, {}) && s.disk[b] == s.disk[l.start + 1] == data
    ensures var u := s.(bufs := s.bufs[b := Buf(true, data, WRAP - 1, Free, {})], pc := Install(1, false));
            StepTo(l, s, Step.Commit, u, NoCrashNoModify)
  {
    assert s.disk[b := data] == s.disk;
  }

  lemma InstalledStep(l: Layout, s: State, b: nat)
    requires Committing(l, s, b) && s.pc == Install(1, false)
    ensures StepTo(l, s, Step.Commit, s.(lh := [], pc := Clear(false)), NoCrashNoModify)
  {
  }

  lemma ClearStep(l: Layout, s: State)
    requires Fits(l, s.disk) && s.lh == [] && s.fault == NoFault && s.ops == map[] && s.pc == Clear(false)
    ensures StepTo(l, s, Step.Commit, s.(header := [], pc := Finish), NoCrashNoModify)
  {
  }

  lemma FinishStep(l: Layout, s: State)
    requires Fits(l, s.disk) && s.lh == [] && s.fault == NoFault && s.ops == map[] && s.pc == Finish
    ensures StepTo(l, s, Step.Commit, s.(committing := false, pc := Idle), NoCrashNoModify)
  {
  }

  /** and installs them: the update is lost. */
  lemma LostUpdate(l: Layout, u: State, s: State, b: nat, data: Block) returns (t: State)
    requires Reach(l, u, s, NoCrashNoModify) && Fits(l, s.disk) && Home(l, b)
    requires s.pc == WriteLog(1) && s.lh == [b] && s.header == [] && s.fault == NoFault && s.committing
             && s.ops == map[]
    requires b in s.bufs && s.bufs[b] == Buf(true, data, 0, Free, {}) && s.disk[b] == s.disk[l.start + 1] == data
    ensures Reach(l, u, t, NoCrashNoModify)
    ensures t.pc == Idle && t.ops == map[] && t.lh == [] && t.header == []
    ensures t.disk == s.disk && View(t.disk, t.bufs, b) == data
  {
    hide StepTo, Reach;
    var ok := NoCrashNoModify;
    HeaderStep(l, s, b);
    var u4 := s.(header := [b], pc := Install(0, false));
    ReachStep(l, u, s, Step.Commit, u4, ok);
    InstallStep(l, u4, b, data);
    var u5 := u4.(bufs := u4.bufs[b := Buf(true, data, WRAP - 1, Free, {})], pc := Install(1, false));
    ReachStep(l, u, u4, Step.Commit, u5, ok);
    InstalledStep(l, u5, b);
    var u6 := u5.(lh := [], pc := Clear(false));
    ReachStep(l, u, u5, Step.Commit, u6, ok);
    ClearStep(l, u6);
    var u7 := u6.(header := [], pc := Finish);
    ReachStep(l, u, u6, Step.Commit, u7, ok);
    FinishStep(l, u7);
    t := u7.(committing := false, pc := Idle);
    ReachStep(l, u, u7, Step.Commit, t, ok);
  }

  lemma FirstBoot(l: Layout, d: Disk, header: seq<nat>) returns (s: State)
    requires Fits(l, d) && Loggable(l, header) && header != []
    ensures Reach(l, Rebooted(d, header), s, NoCrash) && Recovering(l, d, header, s, 0)
  {
    var s0 := Rebooted(d, header);
    s := s0.(lh := header, replayed := true, pc := Install(0, true));
    ReachSelf(l, s0, NoCrash);
    ReachStep(l, s0, s0, Boot, s, NoCrash);
  }

  /** On every boot that finds a committed transaction in the log, for every new contents,
      there is a run without a crash in which an operation writes them to a replayed block
      exactly as the interface asks, ends and is committed, and the block still has its
      old contents, in memory and on disk. */
  lemma ReplayLosesUpdates(l: Layout, d: Disk, header: seq<nat>, data': Block) returns (u: State, t: State)
    requires Fits(l, d) && Loggable(l, header) && header != []
    ensures Reach(l, Rebooted(d, header), u, NoCrash) && Reach(l, u, t, NoCrashNoModify)
    ensures u.pc == Idle && u.ops == map[0 := {header[0]}] && u.lh == [header[0]] && u.unlogged == {}
    ensures |u.disk| == |d| && View(u.disk, u.bufs, header[0]) == data'
    ensures t.pc == Idle && t.ops == map[] && t.lh == [] && t.header == []
    ensures |t.disk| == |d| && t.disk[header[0]] == View(t.disk, t.bufs, header[0]) == d[l.start + 1]
    ensures u.disk[header[0]] == d[l.start + 1] && u.header == [] && Enabled(l, u, Evict(header[0]))
  {
    hide Reach, StepTo, Next, Recovering;
    var s0, b := Rebooted(d, header), header[0];
    var s1 := FirstBoot(l, d, header);
    var r := RecoverAll(l, d, header, s0, s1, 0, NoCrash);
    u := ProperUpdate(l, s0, r, b, d[l.start + 1], data');
    var s := LoggedStale(l, u, b, d[l.start + 1], data');
    t := LostUpdate(l, u, s, b, d[l.start + 1]);
  }

  /** Every step of every run from `s0` is a step of the atomic durable store. */
  ghost predicate Faithful(l: Layout, s0: State, ok: Policy) {
    forall s, step, t | Reach(l, s0, s, ok) && StepTo(l, s, step, t, ok) ::
      && Fits(l, s.disk) && Loggable(l, s.header) && Fits(l, t.disk) && Loggable(l, t.header)
      && SpecNext(Abs(l, s), Label(s, step), Abs(l, t))
  }

  ghost predicate CleanInv(l: Layout, s: State) {
    Inv(l, s) && !s.replayed && (s.pc == ReadHead ==> s.header == [])
  }

  lemma ReplayOnlyAtBoot(l: Layout, s: State, step: Step, t: State)
    requires StepTo(l, s, step, t, NoCrash) && !s.replayed
    ensures t.replayed ==> s.pc == ReadHead && s.header != []
    ensures t.pc == ReadHead ==> s.pc == ReadHead && t.header == s.header
  {
  }

  lemma CleanStep(l: Layout, s: State, step: Step, t: State)
    requires CleanInv(l, s) && StepTo(l, s, step, t, NoCrash)
    ensures CleanInv(l, t)
  {
    ReplayOnlyAtBoot(l, s, step, t);
    StepRefines(l, s, step);
  }

  lemma {:induction false} CleanRun(l: Layout, tr: seq<State>, steps: seq<Step>, n: nat)
    requires IsRun(l, tr, steps, NoCrash) && n <= |steps| && CleanInv(l, tr[0])
    ensures CleanInv(l, tr[n])
  {
    if n > 0 {
      CleanRun(l, tr, steps, n - 1);
      assert StepTo(l, tr[n - 1], steps[n - 1], tr[n - 1 + 1], NoCrash);
      CleanStep(l, tr[n - 1], steps[n - 1], tr[n]);
    }
  }

  /** The exact condition for a boot to be safe to use: until the next crash every run
      behaves as an atomic durable store, if and only if the log was empty at boot. */
  lemma BootIff(l: Layout, d: Disk, header: seq<nat>)
    requires Fits(l, d) && Loggable(l, header)
    ensures Faithful(l, Rebooted(d, header), NoCrash) <==> header == []
  {
    var s0 := Rebooted(d, header);
    if header == [] {
      InitInv(l, d, header);
      forall s, step, t | Reach(l, s0, s, NoCrash) && StepTo(l, s, step, t, NoCrash)
        ensures && Fits(l, s.disk) && Loggable(l, s.header) && Fits(l, t.disk) && Loggable(l, t.header)
                && SpecNext(Abs(l, s), Label(s, step), Abs(l, t))
      {
        var tr, steps :| IsRun(l, tr, steps, NoCrash) && tr[0] == s0 && tr[|steps|] == s;
        CleanRun(l, tr, steps, |steps|);
        StepRefines(l, s, step);
      }
    } else {
      var was, b := d[l.start + 1], header[0];
      var data': Block := if was == ZeroBlock() then ZeroBlock()[0 := 1] else ZeroBlock();
      var u, t := ReplayLosesUpdates(l, d, header, data');
      var v := Next(l, u, Evict(b));
      assert StepTo(l, u, Evict(b), v, NoCrash);
      assert View(v.disk, v.bufs, b) == u.disk[b];
      assert Abs(l, v).volatile[b] != Abs(l, u).volatile[b];
    }
  }

  // ---------- the rule that holders log what they change ----------

  /** brelse of a changed buffer without log_write, which the rule excludes. */
  function ReleasedUnlogged(s: State, p: Pid, b: nat): (t: State)
    requires b in s.bufs
  {
    var buf := s.bufs[b];
    s.(bufs := s.bufs[b := buf.(refcnt := Dec(buf.refcnt), holder := Free, users := buf.users - {p})],
       unlogged := s.unlogged - {b})
  }

  /** Released unlogged by its only user, a changed buffer that is not listed may be recycled, and then reads
      return what is on the disk again: no step of the specification does that. */
  lemma UnloggedIsLost(l: Layout, s: State, p: Pid, b: nat)
    requires Inv(l, s) && Up(s) && !s.replayed && Held(s, p, b) && b in s.unlogged && s.bufs[b].users == {p}
    requires !Pinned(s.pc, s.lh, b) && s.bufs[b].data != s.disk[b]
    ensures var t := ReleasedUnlogged(s, p, b);
            && Fits(l, t.disk) && Loggable(l, t.lh) && Loggable(l, t.header) && Enabled(l, t, Evict(b))
            && var u := Next(l, t, Evict(b));
               && View(t.disk, t.bufs, b) == s.bufs[b].data && View(u.disk, u.bufs, b) == s.disk[b]
               && !SpecNext(Abs(l, t), Label(t, Evict(b)), Abs(l, u))
  {
    var t := ReleasedUnlogged(s, p, b);
    assert BufOk(l, s.disk[b], s.bufs[b], b, Pinned(s.pc, s.lh, b), b !in s.unlogged, true);
    assert |{p}| == 1 && s.bufs[b].users - {p} == {};
    var u := Next(l, t, Evict(b));
    assert Abs(l, t).volatile[b] == s.bufs[b].data && Abs(l, u).volatile[b] == s.disk[b];
  }

  /** Such a state is three calls away from any boot with an empty log. */
  lemma UnloggedReached(l: Layout, d: Disk, b: nat, data: Block) returns (s: State)
    requires Fits(l, d) && Home(l, b) && data != d[b]
    ensures Reach(l, Rebooted(d, []), s, NoCrash) && Inv(l, s) && Up(s) && !s.replayed && Held(s, 0, b)
            && b in s.unlogged
    ensures s.bufs[b].users == {0} && !Pinned(s.pc, s.lh, b) && s.bufs[b].data == data && s.disk == d
  {
    var s0 := Rebooted(d, []);
    CleanBoot(l, d, NoCrash);
    InitInv(l, d, []);
    var s1 := s0.(pc := Idle);
    var s2 := s1.(outstanding := 1, ops := map[0 := {}]);
    ReachStep(l, s0, s1, BeginOp(0), s2, NoCrash);
    Fetch(l, s0, s2, 0, b, NoCrash);
    var s3 := s2.(bufs := map[b := Buf(true, d[b], 1, By(0), {0})]);
    assert s2.bufs[b := Buf(true, d[b], 1, By(0), {0})] == s3.bufs;
    s := s3.(bufs := map[b := Buf(true, data, 1, By(0), {0})], unlogged := {b});
    assert s3.bufs[b := Buf(true, data, 1, By(0), {0})] == s.bufs;
    ReachStep(l, s0, s3, Modify(0, b, data), s, NoCrash);
  }
}
