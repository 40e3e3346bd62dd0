/** The log under concurrency: every interleaving of file system operations, readers, the
    committing process, buffer recycling, crashes and reboots, one atomic step at a time.

    Between two steps of a process any other process may run.  A trip round the loop of
    write_log or install_trans is one step, because it performs one block write.  The
    header block is kept in decoded form (`header`); module LogFormat proves that reading
    a written header gives the list back. */
module LogProtocol {
  import opened Prelude
  import opened Blocks
  import opened LogFormat
  import LogLayer

  const NPROC := 64

  type Pid = p: nat | p < NPROC

  datatype Holder = Free | By(p: Pid)

  /** A buffer; `users` are the processes between bget and brelse. */
  datatype Buf = Buf(valid: bool, data: Block, refcnt: nat, holder: Holder, users: set<Pid>)

  /** Where the committing process, or the recovering boot, stands. */
  datatype Pc =
    | Idle
    | WriteLog(tail: nat)
    | Install(tail: nat, boot: bool)
    | Clear(boot: bool)
    | Finish
    | ReadHead

  datatype Fault = NoFault | TooBig | OutsideTrans | CommittingAtEnd

  datatype State = State(
    disk: Disk,
    header: seq<nat>,            // the list in the on-disk header
    bufs: map<nat, Buf>,         // cached home blocks
    lh: seq<nat>,                // log.lh
    outstanding: int,
    committing: bool,
    pc: Pc,
    ops: map<Pid, set<nat>>,     // operations between begin_op and end_op, with the blocks each has logged
    unlogged: set<nat>,          // buffers changed by their holder since its last log_write
    replayed: bool,              // did recovery at this boot find a non-empty log?
    fault: Fault)

  /** Recovery is over and nothing has panicked. */
  predicate Up(s: State) {
    s.fault == NoFault && !Booting(s)
  }

  datatype Step =
    | BeginOp(p: Pid)
    | Bget(p: Pid, b: nat)
    | Lock(p: Pid, b: nat)
    | Fill(p: Pid, b: nat)
    | Modify(p: Pid, b: nat, data: Block)
    | LogWrite(p: Pid, b: nat)
    | Brelse(p: Pid, b: nat)
    | EndOp(p: Pid)
    | Evict(b: nat)
    | Commit
    | Crash
    | Boot

  predicate Held(s: State, p: Pid, b: nat) {
    b in s.bufs && s.bufs[b].holder == By(p)
  }

  /** The process at `pc` can lock the buffer it needs next. */
  predicate CanProceed(s: State) {
    (s.pc.WriteLog? || s.pc.Install?) && s.pc.tail < |s.lh| && s.lh[s.pc.tail] in s.bufs ==>
      s.bufs[s.lh[s.pc.tail]].holder == Free
  }

  /** What a process may do.  Home buffers are changed only inside an operation, by their
      holder, and are logged before they are released.  Any unused buffer may be recycled at
      any time: the step does not ask whether other blocks need its room, so what is shown
      possible through it needs a disk with more blocks than buffers. */
  predicate Enabled(l: Layout, s: State, step: Step) {
    match step
    case BeginOp(p) =>
      Up(s) && p !in s.ops && !s.committing && |s.lh| + (s.outstanding + 1) * MAXOPBLOCKS <= LOGSIZE
    case Bget(p, b) => Up(s) && Home(l, b) && (b in s.bufs ==> p !in s.bufs[b].users)
    case Lock(p, b) => Up(s) && b in s.bufs && p in s.bufs[b].users && s.bufs[b].holder == Free
    case Fill(p, b) => Up(s) && Home(l, b) && Held(s, p, b) && !s.bufs[b].valid
    case Modify(p, b, _) => Up(s) && Held(s, p, b) && s.bufs[b].valid && p in s.ops
    case LogWrite(p, b) => Up(s) && Held(s, p, b) && s.bufs[b].valid && p in s.ops
    case Brelse(p, b) => Up(s) && Held(s, p, b) && b !in s.unlogged
    case EndOp(p) => Up(s) && p in s.ops && forall b | b in s.unlogged :: !Held(s, p, b)
    case Evict(b) => Up(s) && b in s.bufs && s.bufs[b].refcnt == 0
    case Commit => Up(s) && s.pc != Idle && CanProceed(s)
    case Crash => true
    case Boot => !Up(s) && s.fault == NoFault
  }

  /** What bread finds: the valid buffer, or the disk. */
  function View(d: Disk, bufs: map<nat, Buf>, b: nat): (r: Block)
    requires b < |d|
  {
    if b in bufs && bufs[b].valid then bufs[b].data else d[b]
  }

  /** The buffer after a bread and brelse of block `b` by the log code. */
  function Loaded(s: State, b: nat): (buf: Buf)
    requires b < |s.disk|
    ensures buf.valid && buf.data == View(s.disk, s.bufs, b)
  {
    if b in s.bufs then s.bufs[b].(valid := true, data := View(s.disk, s.bufs, b))
    else Buf(true, s.disk[b], 0, Free, {})
  }

  /** The log code's own steps: commit and recovery share install_trans. */
  function LogStep(l: Layout, s: State): (s': State)
    requires Fits(l, s.disk) && Loggable(l, s.lh) && s.pc != Idle
  {
    match s.pc
    case Idle => s
    case ReadHead => s.(lh := s.header, replayed := s.header != [], pc := Install(0, true))
    case WriteLog(tail) =>
      if tail < |s.lh| then
        var buf := Loaded(s, s.lh[tail]);
        s.(disk := s.disk[l.start + 1 + tail := buf.data], bufs := s.bufs[s.lh[tail] := buf], pc := WriteLog(tail + 1))
      else s.(header := s.lh, pc := Install(0, false))
    case Install(tail, boot) =>
      if tail < |s.lh| then
        var buf, slot := Loaded(s, s.lh[tail]), s.disk[l.start + 1 + tail];
        s.(disk := s.disk[s.lh[tail] := slot],
           bufs := s.bufs[s.lh[tail] := buf.(data := slot, refcnt := Dec(buf.refcnt))],
           pc := Install(tail + 1, boot))
      else s.(lh := [], pc := Clear(boot))
    case Clear(boot) => s.(header := s.lh, pc := if boot then Idle else Finish)
    case Finish => s.(committing := false, pc := Idle)
  }

  function Next(l: Layout, s: State, step: Step): (s': State)
    requires Fits(l, s.disk) && Loggable(l, s.lh) && Enabled(l, s, step)
  {
    match step
    case BeginOp(p) => s.(outstanding := s.outstanding + 1, ops := s.ops[p := {}])
    case Bget(p, b) =>
      if b in s.bufs then
        var buf := s.bufs[b];
        s.(bufs := s.bufs[b := buf.(refcnt := Inc(buf.refcnt), users := buf.users + {p})])
      else s.(bufs := s.bufs[b := Buf(false, s.disk[b], 1, Free, {p})])
    case Lock(p, b) => s.(bufs := s.bufs[b := s.bufs[b].(holder := By(p))])
    case Fill(p, b) => s.(bufs := s.bufs[b := s.bufs[b].(valid := true, data := s.disk[b])])
    case Modify(p, b, data) =>
      s.(bufs := s.bufs[b := s.bufs[b].(data := data)], unlogged := s.unlogged + {b})
    case LogWrite(p, b) =>
      if |s.lh| >= LOGSIZE || |s.lh| >= l.size - 1 then s.(fault := TooBig)
      else if s.outstanding < 1 then s.(fault := OutsideTrans)
      else
        var buf := s.bufs[b];
        s.(lh := LogLayer.Absorb(s.lh, b),
           bufs := if b in s.lh then s.bufs else s.bufs[b := buf.(refcnt := Inc(buf.refcnt))],
           unlogged := s.unlogged - {b},
           ops := s.ops[p := s.ops[p] + {b}])
    case Brelse(p, b) =>
      var buf := s.bufs[b];
      s.(bufs := s.bufs[b := buf.(refcnt := Dec(buf.refcnt), holder := Free, users := buf.users - {p})])
    case EndOp(p) =>
      var t := s.(outstanding := s.outstanding - 1, ops := s.ops - {p});
      if s.committing then t.(fault := CommittingAtEnd)
      else if t.outstanding == 0 then t.(committing := true, pc := if s.lh == [] then Finish else WriteLog(0))
      else t
    case Evict(b) => s.(bufs := s.bufs - {b})
    case Commit => LogStep(l, s)
    case Boot => LogStep(l, s)
    case Crash => Rebooted(s.disk, s.header)
  }

  /** Memory as a boot finds it; only the disk survives. */
  function Rebooted(d: Disk, header: seq<nat>): (s: State) {
    State(d, header, map[], [], 0, false, ReadHead, map[], {}, false, NoFault)
  }

  // ---------- the specification: an atomic, durable block store ----------

  /** `durable` survives a crash, `volatile` is what reads return. */
  datatype Spec = Spec(durable: map<nat, Block>, volatile: map<nat, Block>, active: set<Pid>)

  datatype Event =
    | Stutter
    | Begin(p: Pid)
    | Put(p: Pid, b: nat, data: Block)
    | End(p: Pid)
    | CommitAll
    | Fail

  predicate SpecNext(a: Spec, e: Event, a': Spec) {
    match e
    case Stutter => a' == a
    case Begin(p) => p !in a.active && a' == a.(active := a.active + {p})
    case Put(p, b, data) => p in a.active && b in a.volatile && a' == a.(volatile := a.volatile[b := data])
    case End(p) => p in a.active && a' == a.(active := a.active - {p})
    case CommitAll => a.active == {} && a' == a.(durable := a.volatile)
    case Fail => a' == Spec(a.durable, a.durable, {})
  }

  /** What the concrete state stands for: `durable` is what a recovery of the present disk
      would produce. */
  ghost function Abs(l: Layout, s: State): (a: Spec)
    requires Fits(l, s.disk) && Loggable(l, s.header)
  {
    var durable := Logged(l, s.disk, s.header);
    Spec(durable, if Booting(s) then durable
                  else map b: nat | b < l.total && Home(l, b) :: View(s.disk, s.bufs, b), s.ops.Keys)
  }

  predicate BootPc(pc: Pc) {
    pc == ReadHead || (pc.Install? && pc.boot) || (pc.Clear? && pc.boot)
  }

  predicate Booting(s: State) {
    BootPc(s.pc)
  }

  function Label(s: State, step: Step): (e: Event) {
    match step
    case BeginOp(p) => Begin(p)
    case Modify(p, b, data) => Put(p, b, data)
    case EndOp(p) => End(p)
    case Commit => if s.pc == WriteLog(|s.lh|) then CommitAll else Stutter
    case Crash => Fail
    case _ => Stutter
  }

  // ---------- the invariant ----------

  /** A listed block holds a pin until install_trans drops it; recovery has none to drop. */
  predicate Pinned(pc: Pc, lh: seq<nat>, b: nat) {
    match pc
    case Install(tail, boot) => !boot && exists i | 0 <= i < |lh| :: lh[i] == b && tail <= i
    case _ => exists i | 0 <= i < |lh| :: lh[i] == b
  }

  ghost predicate BufOk(l: Layout, data: Block, buf: Buf, b: nat, pinned: bool, clean: bool, counted: bool) {
    && Home(l, b)
    && (buf.holder.By? ==> buf.holder.p in buf.users)
    && (buf.valid && !pinned && clean ==> buf.data == data)
    && (counted ==> buf.refcnt == |buf.users| + if pinned then 1 else 0)
  }

  ghost predicate BufsOk(l: Layout, d: Disk, bufs: map<nat, Buf>, pc: Pc, lh: seq<nat>, unlogged: set<nat>,
                         counted: bool)
  {
    forall b | b in bufs ::
      b < |d| && BufOk(l, d[b], bufs[b], b, Pinned(pc, lh, b), b !in unlogged, counted)
  }

  ghost predicate PinsOk(bufs: map<nat, Buf>, pc: Pc, lh: seq<nat>) {
    forall i | 0 <= i < |lh| && Pinned(pc, lh, lh[i]) :: lh[i] in bufs && bufs[lh[i]].valid
  }

  ghost predicate UnloggedOk(bufs: map<nat, Buf>, unlogged: set<nat>, ops: map<Pid, set<nat>>) {
    forall b | b in unlogged :: b in bufs && bufs[b].valid && bufs[b].holder.By? && bufs[b].holder.p in ops
  }

  ghost predicate PcOk(l: Layout, d: Disk, header: seq<nat>, bufs: map<nat, Buf>, lh: seq<nat>, pc: Pc)
    requires Fits(l, d) && Loggable(l, lh) && Loggable(l, header)
  {
    match pc
    case ReadHead => lh == [] && bufs == map[]
    case Idle => header == []
    case Finish => header == [] && lh == []
    case WriteLog(tail) =>
      && header == [] && tail <= |lh|
      && forall i | 0 <= i < tail :: d[l.start + 1 + i] == View(d, bufs, lh[i])
    case Install(tail, boot) =>
      && header == lh && tail <= |lh|
      && (forall i | 0 <= i < tail :: d[lh[i]] == d[l.start + 1 + i])
      && (!boot ==> forall i | 0 <= i < |lh| :: d[l.start + 1 + i] == View(d, bufs, lh[i]))
    case Clear(_) =>
      && lh == []
      && forall i | 0 <= i < |header| :: d[header[i]] == d[l.start + 1 + i]
  }

  ghost predicate OpsOk(ops: map<Pid, set<nat>>, outstanding: int, committing: bool, pc: Pc) {
    && outstanding == |ops|
    && (committing <==> pc.WriteLog? || (pc.Install? && !pc.boot) || (pc.Clear? && !pc.boot) || pc.Finish?)
    && (committing || BootPc(pc) ==> ops == map[])
  }

  ghost predicate Inv(l: Layout, s: State) {
    && Fits(l, s.disk) && Loggable(l, s.lh) && Loggable(l, s.header)
    && PcOk(l, s.disk, s.header, s.bufs, s.lh, s.pc)
    && BufsOk(l, s.disk, s.bufs, s.pc, s.lh, s.unlogged, !s.replayed && !Booting(s))
    && PinsOk(s.bufs, s.pc, s.lh)
    && UnloggedOk(s.bufs, s.unlogged, s.ops)
    && OpsOk(s.ops, s.outstanding, s.committing, s.pc)
    && (Booting(s) && !s.replayed ==> s.bufs == map[] && s.lh == [])
  }

  // ---------- every step keeps the invariant and refines the specification ----------

  /** A boot whose recovery replayed a transaction is used for nothing but another boot. */
  predicate Sound(s: State, step: Step) {
    s.replayed && !Booting(s) ==> step.Crash?
  }

  ghost predicate Refines(l: Layout, s: State, step: Step) {
    && Fits(l, s.disk) && Loggable(l, s.lh) && Loggable(l, s.header)
    && Enabled(l, s, step)
    && var s' := Next(l, s, step);
       && Inv(l, s')
       && SpecNext(Abs(l, s), Label(s, step), Abs(l, s'))
  }

  lemma RefineBegin(l: Layout, s: State, p: Pid)
    requires Inv(l, s) && Enabled(l, s, BeginOp(p)) && !s.replayed
    ensures Refines(l, s, BeginOp(p))
  {
    assert s.ops[p := {}].Keys == s.ops.Keys + {p};
  }

  lemma RefineEnd(l: Layout, s: State, p: Pid)
    requires Inv(l, s) && Enabled(l, s, EndOp(p)) && !s.replayed
    ensures Refines(l, s, EndOp(p))
  {
    assert (s.ops - {p}).Keys == s.ops.Keys - {p};
    assert s.ops != map[];
    var s' := Next(l, s, EndOp(p));
    assert forall b | b in s.bufs :: Pinned(s'.pc, s.lh, b) == Pinned(s.pc, s.lh, b);
  }

  lemma {:induction false} UserBound(users: set<Pid>, n: nat)
    requires n <= NPROC && forall p | p in users :: p < n
    ensures |users| <= n
  {
    if n == 0 {
      assert users == {};
    } else {
      UserBound(users - {n - 1}, n - 1);
    }
  }

  ghost predicate SameViews(d: Disk, bufs: map<nat, Buf>, bufs': map<nat, Buf>) {
    forall x: nat | x < |d| :: View(d, bufs', x) == View(d, bufs, x)
  }

  lemma PcFrame(l: Layout, d: Disk, header: seq<nat>, bufs: map<nat, Buf>, bufs': map<nat, Buf>, lh: seq<nat>, pc: Pc)
    requires Fits(l, d) && Loggable(l, lh) && Loggable(l, header)
    requires PcOk(l, d, header, bufs, lh, pc) && pc != ReadHead && SameViews(d, bufs, bufs')
    ensures PcOk(l, d, header, bufs', lh, pc)
  {
  }

  /** The specification sees only what recovery would leave and what reads return. */
  lemma AbsSame(l: Layout, s: State, s': State)
    requires Fits(l, s.disk) && Loggable(l, s.header) && Fits(l, s'.disk) && Loggable(l, s'.header)
    requires Logged(l, s'.disk, s'.header) == Logged(l, s.disk, s.header)
    requires Booting(s') == Booting(s) && s'.ops.Keys == s.ops.Keys
    requires Booting(s) || forall x: nat | x < l.total :: View(s'.disk, s'.bufs, x) == View(s.disk, s.bufs, x)
    ensures Abs(l, s') == Abs(l, s)
  {
  }

  lemma AbsFrame(l: Layout, s: State, s': State)
    requires Fits(l, s.disk) && Loggable(l, s.header)
    requires s'.disk == s.disk && s'.header == s.header && s'.pc == s.pc && s'.ops.Keys == s.ops.Keys
    requires SameViews(s.disk, s.bufs, s'.bufs)
    ensures Abs(l, s') == Abs(l, s)
  {
    AbsSame(l, s, s');
  }

  /** Replacing one buffer by one that reads the same. */
  lemma ReplaceBuf(l: Layout, s: State, b: nat, buf: Buf)
    requires Inv(l, s) && Home(l, b) && !Booting(s) && !s.replayed
    requires BufOk(l, s.disk[b], buf, b, Pinned(s.pc, s.lh, b), b !in s.unlogged, true)
    requires View(s.disk, s.bufs[b := buf], b) == View(s.disk, s.bufs, b)
    requires Pinned(s.pc, s.lh, b) ==> buf.valid
    requires b in s.unlogged ==> b in s.bufs && buf.valid && buf.holder == s.bufs[b].holder
    ensures Inv(l, s.(bufs := s.bufs[b := buf])) && Abs(l, s.(bufs := s.bufs[b := buf])) == Abs(l, s)
  {
    var bufs := s.bufs[b := buf];
    assert SameViews(s.disk, s.bufs, bufs);
    PcFrame(l, s.disk, s.header, s.bufs, bufs, s.lh, s.pc);
    AbsFrame(l, s, s.(bufs := bufs));
  }

  lemma RefineBget(l: Layout, s: State, p: Pid, b: nat)
    requires Inv(l, s) && Enabled(l, s, Bget(p, b)) && !s.replayed
    ensures Refines(l, s, Bget(p, b))
  {
    if b in s.bufs {
      UserBound(s.bufs[b].users, NPROC);
    }
    ReplaceBuf(l, s, b, Next(l, s, Bget(p, b)).bufs[b]);
  }

  lemma RefineLock(l: Layout, s: State, p: Pid, b: nat)
    requires Inv(l, s) && Enabled(l, s, Lock(p, b)) && !s.replayed
    ensures Refines(l, s, Lock(p, b))
  {
    ReplaceBuf(l, s, b, s.bufs[b].(holder := By(p)));
  }

  lemma RefineFill(l: Layout, s: State, p: Pid, b: nat)
    requires Inv(l, s) && Enabled(l, s, Fill(p, b)) && !s.replayed
    ensures Refines(l, s, Fill(p, b))
  {
    ReplaceBuf(l, s, b, s.bufs[b].(valid := true, data := s.disk[b]));
  }

  lemma RefineBrelse(l: Layout, s: State, p: Pid, b: nat)
    requires Inv(l, s) && Enabled(l, s, Brelse(p, b)) && !s.replayed
    ensures Refines(l, s, Brelse(p, b))
  {
    ReplaceBuf(l, s, b, Next(l, s, Brelse(p, b)).bufs[b]);
  }

  /** A change made inside an operation, by the holder; no commit is under way. */
  lemma ChangeBuf(l: Layout, s: State, s': State, p: Pid, b: nat, data: Block)
    requires Inv(l, s) && !Booting(s) && !s.committing && Held(s, p, b) && s.bufs[b].valid && p in s.ops
    requires s' == s.(bufs := s.bufs[b := s.bufs[b].(data := data)], unlogged := s.unlogged + {b})
    ensures Inv(l, s')
    ensures b in Abs(l, s).volatile && Abs(l, s') == Abs(l, s).(volatile := Abs(l, s).volatile[b := data])
  {
    hide Logged, Distinct, Abs;
    ChangeAbs(l, s, s', b, data);
  }

  lemma ChangeAbs(l: Layout, s: State, s': State, b: nat, data: Block)
    requires Fits(l, s.disk) && Loggable(l, s.header) && !Booting(s) && Home(l, b) && b in s.bufs && s.bufs[b].valid
    requires s' == s.(bufs := s.bufs[b := s.bufs[b].(data := data)], unlogged := s.unlogged + {b})
    ensures b in Abs(l, s).volatile && Abs(l, s') == Abs(l, s).(volatile := Abs(l, s).volatile[b := data])
  {
    hide Logged, Distinct;
    assert forall x: nat | x < l.total && x != b :: View(s.disk, s'.bufs, x) == View(s.disk, s.bufs, x);
  }

  lemma RefineModify(l: Layout, s: State, p: Pid, b: nat, data: Block)
    requires Inv(l, s) && Enabled(l, s, Modify(p, b, data)) && !s.replayed
    ensures Refines(l, s, Modify(p, b, data))
  {
    assert s.ops != map[];
    ChangeBuf(l, s, Next(l, s, Modify(p, b, data)), p, b, data);
  }

  lemma DropBuf(l: Layout, s: State, b: nat)
    requires Inv(l, s) && !Booting(s) && b in s.bufs && b !in s.unlogged && !Pinned(s.pc, s.lh, b)
    ensures Inv(l, s.(bufs := s.bufs - {b})) && Abs(l, s.(bufs := s.bufs - {b})) == Abs(l, s)
  {
    var bufs := s.bufs - {b};
    assert SameViews(s.disk, s.bufs, bufs);
    PcFrame(l, s.disk, s.header, s.bufs, bufs, s.lh, s.pc);
    AbsFrame(l, s, s.(bufs := bufs));
  }

  lemma RefineEvict(l: Layout, s: State, b: nat)
    requires Inv(l, s) && Enabled(l, s, Evict(b)) && !s.replayed
    ensures Refines(l, s, Evict(b))
  {
    assert BufOk(l, s.disk[b], s.bufs[b], b, Pinned(s.pc, s.lh, b), b !in s.unlogged, true);
    assert b !in s.unlogged && !Pinned(s.pc, s.lh, b);
    DropBuf(l, s, b);
  }

  /** log_write lists the block and pins its buffer, or absorbs it. */
  lemma ListBuf(l: Layout, s: State, s': State, p: Pid, b: nat)
    requires Inv(l, s) && s.pc == Idle && !s.replayed && Held(s, p, b) && s.bufs[b].valid && p in s.ops
    requires |s.lh| < LOGSIZE && |s.lh| < l.size - 1
    requires var buf := s.bufs[b];
             s' == s.(lh := LogLayer.Absorb(s.lh, b),
                      bufs := if b in s.lh then s.bufs else s.bufs[b := buf.(refcnt := Inc(buf.refcnt))],
                      unlogged := s.unlogged - {b},
                      ops := s.ops[p := s.ops[p] + {b}])
    ensures Inv(l, s') && Abs(l, s') == Abs(l, s)
  {
    hide Abs, Logged;
    UserBound(s.bufs[b].users, NPROC);
    assert s'.ops.Keys == s.ops.Keys;
    assert forall x: nat | x != b :: Pinned(s.pc, s'.lh, x) == Pinned(s.pc, s.lh, x);
    assert SameViews(s.disk, s.bufs, s'.bufs);
    AbsFrame(l, s, s');
  }

  lemma RefineLogWrite(l: Layout, s: State, p: Pid, b: nat)
    requires Inv(l, s) && Enabled(l, s, LogWrite(p, b)) && !s.replayed
    ensures Refines(l, s, LogWrite(p, b))
  {
    assert s.ops != map[];
    var s' := Next(l, s, LogWrite(p, b));
    if s'.fault == NoFault {
      ListBuf(l, s, s', p, b);
    }
  }

  lemma RefineCrash(l: Layout, s: State)
    requires Inv(l, s)
    ensures Refines(l, s, Crash)
  {
  }

  // ---------- the steps of the log code ----------

  /** While the header lists nothing, a write in the log area means nothing. */
  lemma SlotWrite(l: Layout, d: Disk, b: nat, data: Block)
    requires Fits(l, d) && l.InLog(b)
    ensures Logged(l, d[b := data], []) == Logged(l, d, [])
  {
  }

  /** Installing a listed block does not change what it is worth. */
  lemma InstallWrite(l: Layout, d: Disk, lh: seq<nat>, i: nat)
    requires Fits(l, d) && Loggable(l, lh) && i < |lh|
    ensures Logged(l, d[lh[i] := d[l.start + 1 + i]], lh) == Logged(l, d, lh)
  {
    var d' := d[lh[i] := d[l.start + 1 + i]];
    forall b: nat | Home(l, b) ensures LoggedAt(l, d', lh, b) == LoggedAt(l, d, lh, b) {
    }
  }

  /** Once every listed block is installed the list is not needed any more. */
  lemma Unlisted(l: Layout, d: Disk, lh: seq<nat>)
    requires Fits(l, d) && Loggable(l, lh)
    requires forall i | 0 <= i < |lh| :: d[lh[i]] == d[l.start + 1 + i]
    ensures Logged(l, d, []) == Logged(l, d, lh)
  {
    forall b: nat | Home(l, b) ensures LoggedAt(l, d, [], b) == LoggedAt(l, d, lh, b) {
      var i := IndexOf(lh, b);
    }
  }

  lemma StepWriteLog(l: Layout, s: State)
    requires Inv(l, s) && s.pc.WriteLog? && s.pc.tail < |s.lh|
    ensures var s' := LogStep(l, s); Inv(l, s') && Abs(l, s') == Abs(l, s)
  {
    var b, slot := s.lh[s.pc.tail], l.start + 1 + s.pc.tail;
    assert Pinned(s.pc, s.lh, b);
    assert s.bufs[b := Loaded(s, b)] == s.bufs;
    CopyWrite(l, s, LogStep(l, s), slot, View(s.disk, s.bufs, b));
  }

  lemma CopyPc(l: Layout, d: Disk, bufs: map<nat, Buf>, lh: seq<nat>, tail: nat, data: Block)
    requires Fits(l, d) && Loggable(l, lh) && tail < |lh| && data == View(d, bufs, lh[tail])
    requires PcOk(l, d, [], bufs, lh, WriteLog(tail))
    ensures PcOk(l, d[l.start + 1 + tail := data], [], bufs, lh, WriteLog(tail + 1))
  {
  }

  lemma CopyBufs(l: Layout, d: Disk, bufs: map<nat, Buf>, lh: seq<nat>, tail: nat, slot: nat, data: Block,
                 counted: bool)
    requires Fits(l, d) && l.InLog(slot)
    requires BufsOk(l, d, bufs, WriteLog(tail), lh, {}, counted)
    ensures BufsOk(l, d[slot := data], bufs, WriteLog(tail + 1), lh, {}, counted)
  {
    forall b | b in bufs ensures Pinned(WriteLog(tail + 1), lh, b) == Pinned(WriteLog(tail), lh, b) && b != slot {
      assert Home(l, b);
    }
  }

  lemma CopyWrite(l: Layout, s: State, s': State, slot: nat, data: Block)
    requires Inv(l, s) && s.pc.WriteLog? && s.pc.tail < |s.lh|
    requires slot == l.start + 1 + s.pc.tail && data == View(s.disk, s.bufs, s.lh[s.pc.tail])
    requires s' == s.(disk := s.disk[slot := data], pc := WriteLog(s.pc.tail + 1))
    ensures Inv(l, s') && Abs(l, s') == Abs(l, s)
  {
    hide Abs, Logged, Distinct;
    assert s.unlogged == {};
    CopyPc(l, s.disk, s.bufs, s.lh, s.pc.tail, data);
    CopyBufs(l, s.disk, s.bufs, s.lh, s.pc.tail, slot, data, !s.replayed && !Booting(s));
    SlotWrite(l, s.disk, slot, data);
    CopyAbs(l, s, s', slot, data);
  }

  lemma CopyAbs(l: Layout, s: State, s': State, slot: nat, data: Block)
    requires Fits(l, s.disk) && l.InLog(slot) && s.header == [] && s.pc.WriteLog?
    requires s' == s.(disk := s.disk[slot := data], pc := WriteLog(s.pc.tail + 1))
    requires Logged(l, s'.disk, []) == Logged(l, s.disk, [])
    ensures Abs(l, s') == Abs(l, s)
  {
    forall b: nat | Home(l, b) ensures View(s'.disk, s'.bufs, b) == View(s.disk, s.bufs, b) {
    }
  }

  /** With every listed block copied to the log, the log holds what reads return. */
  lemma LogHoldsViews(l: Layout, d: Disk, bufs: map<nat, Buf>, lh: seq<nat>, pc: Pc, counted: bool)
    requires Fits(l, d) && Loggable(l, lh) && pc == WriteLog(|lh|)
    requires BufsOk(l, d, bufs, pc, lh, {}, counted)
    requires forall i | 0 <= i < |lh| :: d[l.start + 1 + i] == View(d, bufs, lh[i])
    ensures Logged(l, d, lh) == map b: nat | b < l.total && Home(l, b) :: View(d, bufs, b)
  {
    forall b: nat | Home(l, b) ensures LoggedAt(l, d, lh, b) == View(d, bufs, b) {
      var i := IndexOf(lh, b);
      assert i == |lh| ==> !Pinned(pc, lh, b);
    }
  }

  /** The commit point: the header write makes the whole group durable at once. */
  lemma StepWriteHead(l: Layout, s: State)
    requires Inv(l, s) && s.pc == WriteLog(|s.lh|)
    ensures var s' := LogStep(l, s);
            && Inv(l, s') && s.ops == map[]
            && Abs(l, s') == Abs(l, s).(durable := Abs(l, s).volatile)
  {
    assert s.unlogged == {};
    hide BufsOk, PinsOk, Logged;
    LogHoldsViews(l, s.disk, s.bufs, s.lh, s.pc, !s.replayed && !Booting(s));
    HeadPins(l, s.disk, s.bufs, s.lh, !s.replayed && !Booting(s));
  }

  /** Writing the header changes no pin. */
  lemma HeadPins(l: Layout, d: Disk, bufs: map<nat, Buf>, lh: seq<nat>, counted: bool)
    requires BufsOk(l, d, bufs, WriteLog(|lh|), lh, {}, counted) && PinsOk(bufs, WriteLog(|lh|), lh)
    ensures BufsOk(l, d, bufs, Install(0, false), lh, {}, counted) && PinsOk(bufs, Install(0, false), lh)
  {
    hide BufOk;
    assert forall b: nat :: Pinned(Install(0, false), lh, b) == Pinned(WriteLog(|lh|), lh, b);
  }

  lemma StepInstallEnd(l: Layout, s: State)
    requires Inv(l, s) && s.pc.Install? && s.pc.tail == |s.lh|
    ensures var s' := LogStep(l, s); Inv(l, s') && Abs(l, s') == Abs(l, s)
  {
    assert forall b: nat :: !Pinned(s.pc, s.lh, b);
  }

  /** With nothing listed and nothing unlogged, reads return what is on the disk. */
  lemma CleanViews(l: Layout, d: Disk, bufs: map<nat, Buf>, pc: Pc, counted: bool)
    requires Fits(l, d) && BufsOk(l, d, bufs, pc, [], {}, counted)
    ensures Logged(l, d, []) == map b: nat | b < l.total && Home(l, b) :: View(d, bufs, b)
  {
    forall b: nat | Home(l, b) ensures LoggedAt(l, d, [], b) == View(d, bufs, b) {
      assert !Pinned(pc, [], b);
    }
  }

  lemma ClearBufs(l: Layout, d: Disk, bufs: map<nat, Buf>, pc: Pc, pc': Pc, unlogged: set<nat>, counted: bool,
                  counted': bool)
    requires Fits(l, d) && BufsOk(l, d, bufs, pc, [], unlogged, counted) && (counted' ==> counted || bufs == map[])
    ensures BufsOk(l, d, bufs, pc', [], unlogged, counted')
  {
    assert forall b: nat :: !Pinned(pc, [], b) && !Pinned(pc', [], b);
  }

  lemma StepClear(l: Layout, s: State)
    requires Inv(l, s) && s.pc.Clear?
    ensures var s' := LogStep(l, s); Inv(l, s') && Abs(l, s') == Abs(l, s)
  {
    hide BufsOk, Logged, Fits, Loggable;
    var s' := LogStep(l, s);
    Unlisted(l, s.disk, s.header);
    ClearBufs(l, s.disk, s.bufs, s.pc, s'.pc, s.unlogged, !s.replayed && !Booting(s), !s.replayed && !Booting(s'));
    if s.pc.boot {
      assert s.unlogged == {};
      CleanViews(l, s.disk, s.bufs, s.pc, !s.replayed && !Booting(s));
    }
  }

  lemma PinnedNext(lh: seq<nat>, tail: nat, boot: bool, b: nat)
    requires Distinct(lh) && tail < |lh|
    ensures Pinned(Install(tail + 1, boot), lh, b) <==> b != lh[tail] && Pinned(Install(tail, boot), lh, b)
  {
  }

  lemma InstallBufs(l: Layout, d: Disk, bufs: map<nat, Buf>, lh: seq<nat>, tail: nat, boot: bool, counted: bool,
                    slot: Block, buf: Buf)
    requires Fits(l, d) && Loggable(l, lh) && tail < |lh|
    requires BufsOk(l, d, bufs, Install(tail, boot), lh, {}, counted) && PinsOk(bufs, Install(tail, boot), lh)
    requires BufOk(l, slot, buf, lh[tail], false, true, counted)
    ensures BufsOk(l, d[lh[tail] := slot], bufs[lh[tail] := buf], Install(tail + 1, boot), lh, {}, counted)
    ensures PinsOk(bufs[lh[tail] := buf], Install(tail + 1, boot), lh)
  {
    forall b | b in bufs[lh[tail] := buf]
      ensures Pinned(Install(tail + 1, boot), lh, b) <==> b != lh[tail] && Pinned(Install(tail, boot), lh, b)
    {
      PinnedNext(lh, tail, boot, b);
    }
    forall i | 0 <= i < |lh|
      ensures Pinned(Install(tail + 1, boot), lh, lh[i]) ==> i != tail && Pinned(Install(tail, boot), lh, lh[i])
    {
      PinnedNext(lh, tail, boot, lh[i]);
    }
  }

  lemma InstallPc(l: Layout, d: Disk, bufs: map<nat, Buf>, lh: seq<nat>, tail: nat, boot: bool, buf: Buf)
    requires Fits(l, d) && Loggable(l, lh) && tail < |lh|
    requires PcOk(l, d, lh, bufs, lh, Install(tail, boot))
    requires buf.valid && buf.data == d[l.start + 1 + tail]
    ensures PcOk(l, d[lh[tail] := d[l.start + 1 + tail]], lh, bufs[lh[tail] := buf], lh, Install(tail + 1, boot))
  {
    var d', bufs' := d[lh[tail] := d[l.start + 1 + tail]], bufs[lh[tail] := buf];
    forall i | 0 <= i < |lh|
      ensures d'[l.start + 1 + i] == d[l.start + 1 + i]
      ensures i != tail ==> View(d', bufs', lh[i]) == View(d, bufs, lh[i])
    {
      assert l.InLog(l.start + 1 + i);
    }
  }

  lemma UnpinnedBuf(l: Layout, s: State, b: nat, slot: Block)
    requires Inv(l, s) && s.pc.Install? && s.pc.tail < |s.lh|
    requires b == s.lh[s.pc.tail] && slot == s.disk[l.start + 1 + s.pc.tail]
    ensures s.unlogged == {} && (!s.pc.boot ==> slot == View(s.disk, s.bufs, b))
    ensures var buf := Loaded(s, b);
            BufOk(l, slot, buf.(data := slot, refcnt := Dec(buf.refcnt)), b, false, true, !s.replayed && !Booting(s))
  {
    assert !s.pc.boot ==> Pinned(s.pc, s.lh, b);
  }

  /** install_trans's loop body: the next listed block reaches its home and loses its pin. */
  lemma StepInstall(l: Layout, s: State)
    requires Inv(l, s) && s.pc.Install? && s.pc.tail < |s.lh|
    ensures var s' := LogStep(l, s); Inv(l, s') && Abs(l, s') == Abs(l, s)
  {
    hide BufsOk, PinsOk, BufOk, LogStep, Abs;
    var b, slot := s.lh[s.pc.tail], s.disk[l.start + 1 + s.pc.tail];
    InstallIs(l, s);
    UnpinnedBuf(l, s, b, slot);
    var loaded := Loaded(s, b);
    var buf := loaded.(data := slot, refcnt := Dec(loaded.refcnt));
    InstallBufs(l, s.disk, s.bufs, s.lh, s.pc.tail, s.pc.boot, !s.replayed && !Booting(s), slot, buf);
    InstallPc(l, s.disk, s.bufs, s.lh, s.pc.tail, s.pc.boot, buf);
    InstallDone(l, s, LogStep(l, s), b, slot, buf);
  }

  lemma InstallIs(l: Layout, s: State)
    requires Fits(l, s.disk) && Loggable(l, s.lh) && s.pc.Install? && s.pc.tail < |s.lh|
    ensures var b, slot := s.lh[s.pc.tail], s.disk[l.start + 1 + s.pc.tail];
            var buf := Loaded(s, b);
            LogStep(l, s) == s.(disk := s.disk[b := slot],
                                bufs := s.bufs[b := buf.(data := slot, refcnt := Dec(buf.refcnt))],
                                pc := Install(s.pc.tail + 1, s.pc.boot))
  {
  }

  lemma InstallDone(l: Layout, s: State, s': State, b: nat, slot: Block, buf: Buf)
    requires Inv(l, s) && s.pc.Install? && s.pc.tail < |s.lh| && s.unlogged == {}
    requires b == s.lh[s.pc.tail] && slot == s.disk[l.start + 1 + s.pc.tail]
    requires !s.pc.boot ==> slot == View(s.disk, s.bufs, b)
    requires buf.valid && buf.data == slot
    requires s' == s.(disk := s.disk[b := slot], bufs := s.bufs[b := buf], pc := Install(s.pc.tail + 1, s.pc.boot))
    requires BufsOk(l, s'.disk, s'.bufs, s'.pc, s.lh, {}, !s.replayed && !Booting(s))
    requires PinsOk(s'.bufs, s'.pc, s.lh) && PcOk(l, s'.disk, s.lh, s'.bufs, s.lh, s'.pc)
    ensures Inv(l, s') && Abs(l, s') == Abs(l, s)
  {
    InstallAbs(l, s, s', b, slot, buf);
  }

  lemma InstallAbs(l: Layout, s: State, s': State, b: nat, slot: Block, buf: Buf)
    requires Fits(l, s.disk) && Loggable(l, s.lh) && s.header == s.lh && s.pc.Install? && s.pc.tail < |s.lh|
    requires b == s.lh[s.pc.tail] && slot == s.disk[l.start + 1 + s.pc.tail]
    requires !s.pc.boot ==> slot == View(s.disk, s.bufs, b)
    requires buf.valid && buf.data == slot
    requires s' == s.(disk := s.disk[b := slot], bufs := s.bufs[b := buf], pc := Install(s.pc.tail + 1, s.pc.boot))
    ensures Abs(l, s') == Abs(l, s)
  {
    hide Logged, Distinct;
    InstallWrite(l, s.disk, s.lh, s.pc.tail);
    if !s.pc.boot {
      assert forall x: nat | x < l.total :: View(s'.disk, s'.bufs, x) == View(s.disk, s.bufs, x);
    }
    AbsSame(l, s, s');
  }

  lemma StepFinish(l: Layout, s: State)
    requires Inv(l, s) && s.pc.Finish?
    ensures var s' := LogStep(l, s); Inv(l, s') && Abs(l, s') == Abs(l, s)
  {
  }

  lemma StepReadHead(l: Layout, s: State)
    requires Inv(l, s) && s.pc.ReadHead?
    ensures var s' := LogStep(l, s); Inv(l, s') && Abs(l, s') == Abs(l, s)
  {
  }

  // ---------- whole runs ----------

  /** One step of any kind keeps the invariant and is a step of the specification. */
  lemma StepRefines(l: Layout, s: State, step: Step)
    requires Inv(l, s) && Enabled(l, s, step) && Sound(s, step)
    ensures Refines(l, s, step)
  {
    match step
    case BeginOp(p) => RefineBegin(l, s, p);
    case Bget(p, b) => RefineBget(l, s, p, b);
    case Lock(p, b) => RefineLock(l, s, p, b);
    case Fill(p, b) => RefineFill(l, s, p, b);
    case Modify(p, b, data) => RefineModify(l, s, p, b, data);
    case LogWrite(p, b) => RefineLogWrite(l, s, p, b);
    case Brelse(p, b) => RefineBrelse(l, s, p, b);
    case EndOp(p) => RefineEnd(l, s, p);
    case Evict(b) => RefineEvict(l, s, b);
    case Crash => RefineCrash(l, s);
    case Commit => RefineLogStep(l, s);
    case Boot => RefineLogStep(l, s);
  }

  lemma RefineLogStep(l: Layout, s: State)
    requires Inv(l, s) && s.pc != Idle
    ensures var s' := LogStep(l, s);
            && Inv(l, s')
            && SpecNext(Abs(l, s), if s.pc == WriteLog(|s.lh|) then CommitAll else Stutter, Abs(l, s'))
  {
    match s.pc
    case ReadHead => StepReadHead(l, s);
    case WriteLog(tail) => if tail < |s.lh| { StepWriteLog(l, s); } else { StepWriteHead(l, s); }
    case Install(tail, _) => if tail < |s.lh| { StepInstall(l, s); } else { StepInstallEnd(l, s); }
    case Clear(_) => StepClear(l, s);
    case Finish => StepFinish(l, s);
  }
}
