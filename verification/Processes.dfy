/** The process table of kernel/proc.c: scheduling, sleep and wakeup, fork, exit and wait.

    The CPUs interleave.  A step takes at most one lock, does what the code does under the locks then
    held, and gives locks back; reads of a parent made without a lock are steps of their own.  A lock
    belongs to the CPU that took it, so a process that switches to its CPU's scheduler hands its lock
    over with the switch. */
module Processes {
  import opened Prelude

  datatype ProcState = UNUSED | SLEEPING | RUNNABLE | RUNNING | ZOMBIE

  /** What a process sleeps on: its own entry in wait, or something else. */
  datatype Chan = NoChan | OfProc(p: nat) | Other(ch: nat)

  /** Where a process that is not running goes on. */
  datatype Ctx = Fresh | InYield | InSleep | InWait(nohang: bool) | Dead

  datatype Proc = Proc(state: ProcState, parent: Option<nat>, chan: Chan, killed: bool, ctx: Ctx)

  const INIT := 0

  const FREED := Proc(UNUSED, None, NoChan, false, Fresh)

  /** What a CPU is about to do; `i` is the process it runs. */
  datatype Pc =
    // the scheduler: about to look at entry `k`; back from process `i`
    | Scan(k: nat)
    | Done(i: nat)
    // a process: resumed with its lock held; outside of these functions
    | Back(i: nat)
    | User(i: nat)
    // sleep: the condition's lock held; its own lock held instead, about to sleep
    | Hold(i: nat, ch: nat)
    | Doze(i: nat, ch: nat)
    // wakeup at entry `k`; `who` had gone to sleep when it began, `saw` counts their wakeups then
    | Wake(i: nat, ch: nat, k: nat, who: set<nat>, saw: seq<nat>)
    | ForkScan(i: nat, k: nat)
    // exit: about to wake init; to read the parent; to lock it; to lock itself
    | Exit0(i: nat)
    | Exit1(i: nat)
    | Exit2(i: nat, op: nat)
    | Exit3(i: nat, op: nat)
    // reparent at entry `k`; about to lock child `k`
    | Exit4(i: nat, op: nat, k: nat)
    | Exit5(i: nat, op: nat, k: nat)
    // wait at entry `k`; about to lock child `k`
    | WaitScan(i: nat, k: nat, havekids: bool, nohang: bool)
    | WaitChild(i: nat, k: nat, nohang: bool)

  /** `on` names the CPU whose proc field is the process, `woken` counts how often it was woken. */
  datatype State = State(procs: seq<Proc>, locks: seq<Option<nat>>, chans: map<nat, nat>, cpus: seq<Pc>,
                         on: seq<Option<nat>>, woken: seq<nat>)

  /** Fail: a call finds no memory or cannot copy.  Undo: fork frees the entry it has taken again. */
  datatype Choice = Go | Fail | Undo | Yield | Fork | Exit | Wait(nohang: bool) | Sleep(ch: nat) | Wakeup(ch: nat)
                  | Kill(k: nat)

  /** The process whose code the CPU runs: its proc field. */
  function ProcOf(pc: Pc): (p: Option<nat>) {
    if pc.Scan? then None else Some(pc.i)
  }

  /** The process locks a CPU holds between steps. */
  function Holds(pc: Pc): (s: set<nat>) {
    match pc
    case Done(i) => {i}
    case Back(i) => {i}
    case Doze(i, _) => {i}
    case WaitScan(i, _, _, _) => {i}
    case WaitChild(i, _, _) => {i}
    case Exit3(_, op) => {op}
    case Exit4(i, op, _) => {i, op}
    case Exit5(i, op, _) => {i, op}
    case _ => {}
  }

  /** The lock of a condition a CPU holds between steps. */
  function HoldsChan(pc: Pc): (ch: Option<nat>) {
    match pc
    case Hold(_, ch) => Some(ch)
    case Wake(_, ch, _, _, _) => Some(ch)
    case _ => None
  }

  function Wakened(p: Proc): (q: Proc) {
    p.(state := RUNNABLE)
  }

  // ---------- steps ----------

  predicate Free(s: State, i: nat) {
    i < |s.locks| && s.locks[i] == None
  }

  ghost predicate Shaped(s: State) {
    |s.locks| == |s.on| == |s.woken| == |s.procs| > 0
  }

  /** Gone to sleep on `ch`, or past the point where sleep gives the condition's lock back. */
  predicate Dozing(s: State, j: nat, ch: nat)
    requires j < |s.procs| == |s.on|
  {
    || (s.procs[j].state == SLEEPING && s.procs[j].chan == Other(ch))
    || (s.on[j].Some? && s.on[j].value < |s.cpus| && s.cpus[s.on[j].value] == Doze(j, ch))
  }

  /** The lock a step takes, if any. */
  function Takes(s: State, pc: Pc, choice: Choice): (k: Option<nat>) {
    match pc
    case Scan(k) => if k < |s.procs| then Some(k) else None
    case User(i) => if choice.Yield? || choice.Wait? then Some(i) else if choice.Kill? then Some(choice.k) else None
    case Hold(i, _) => if choice.Fail? then None else Some(i)
    case Wake(_, _, k, _, _) => if k < |s.procs| then Some(k) else None
    case ForkScan(_, k) => if k < |s.procs| then Some(k) else None
    case Exit0(_) => Some(INIT)
    case Exit1(i) => Some(i)
    case Exit2(_, op) => Some(op)
    case Exit3(i, _) => Some(i)
    case Exit5(_, _, k) => Some(k)
    case WaitChild(_, k, _) => Some(k)
    case _ => None
  }

  predicate Enabled(s: State, c: nat, choice: Choice)
    requires c < |s.cpus|
  {
    var pc := s.cpus[c];
    && (Takes(s, pc, choice).Some? ==> Free(s, Takes(s, pc, choice).value))
    && (pc.User? ==> match choice
                     case Exit => pc.i != INIT
                     case Sleep(ch) => ch !in s.chans
                     case Wakeup(ch) => ch !in s.chans
                     case Yield => true
                     case Fork => true
                     case Wait(_) => true
                     case Kill(_) => true
                     case _ => false)
    && (pc.Exit1? ==> pc.i < |s.procs| && s.procs[pc.i].parent.Some?)
  }

  /** CPU `c` goes on at `pc`, nothing else changes. */
  function At(s: State, c: nat, pc: Pc): (t: State)
    requires c < |s.cpus|
  {
    s.(cpus := s.cpus[c := pc])
  }

  /** Entry `i` of the table becomes `p`. */
  function Put(s: State, i: nat, p: Proc): (t: State)
    requires i < |s.procs|
  {
    s.(procs := s.procs[i := p])
  }

  function Lock(s: State, i: nat, c: nat): (t: State)
    requires i < |s.locks|
  {
    s.(locks := s.locks[i := Some(c)])
  }

  function Unlock(s: State, i: nat): (t: State)
    requires i < |s.locks|
  {
    s.(locks := s.locks[i := None])
  }

  /** wakeup and wakeup1: makes a sleeper runnable. */
  function WakeUp(s: State, j: nat): (t: State)
    requires j < |s.procs| == |s.woken|
  {
    s.(procs := s.procs[j := Wakened(s.procs[j])], woken := s.woken[j := s.woken[j] + 1])
  }

  function WakeUpIf(s: State, j: nat, chan: Chan): (t: State)
    requires j < |s.procs| == |s.woken|
  {
    if s.procs[j].state == SLEEPING && s.procs[j].chan == chan then WakeUp(s, j) else s
  }

  /** Indices are entries of the table. */
  predicate InRange(s: State, pc: Pc) {
    var n := |s.procs|;
    && (ProcOf(pc).Some? ==> pc.i < n)
    && (pc.Exit2? || pc.Exit3? || pc.Exit4? || pc.Exit5? ==> pc.op < n) && (pc.Exit5? ==> pc.k < n)
    && (pc.WaitChild? ==> pc.k < n)
  }

  predicate Ready(s: State, c: nat, choice: Choice) {
    && |s.locks| == |s.on| == |s.woken| == |s.procs| > 0 && c < |s.cpus| && InRange(s, s.cpus[c])
    && Enabled(s, c, choice)
  }

  /** The step of CPU `c`, with `choice` where the code leaves one. */
  function Next(s: State, c: nat, choice: Choice): (t: State)
    requires Ready(s, c, choice)
    ensures |t.locks| == |t.on| == |t.woken| == |t.procs| == |s.procs| && |t.cpus| == |s.cpus|
  {
    var n := |s.procs|;
    match s.cpus[c]
    case Scan(k) =>
      if k >= n then At(s, c, Scan(0))
      else if s.procs[k].state == RUNNABLE then
        At(Lock(Put(s, k, s.procs[k].(state := RUNNING)), k, c).(on := s.on[k := Some(c)]), c, Back(k))
      else At(s, c, Scan(k + 1))
    case Done(i) => At(Unlock(s, i).(on := s.on[i := None]), c, Scan(i + 1))
    case Back(i) =>
      var t := Put(s, i, s.procs[i].(chan := NoChan));
      if s.procs[i].ctx.InWait? then At(t, c, WaitScan(i, 0, false, s.procs[i].ctx.nohang))
      else At(Unlock(t, i), c, User(i))
    case User(i) => NextUser(s, c, i, choice)
    case Hold(i, ch) =>
      if choice.Fail? then At(s.(chans := s.chans - {ch}), c, User(i))
      else At(Lock(s, i, c).(chans := s.chans - {ch}), c, Doze(i, ch))
    case Doze(i, ch) =>
      At(Put(s, i, s.procs[i].(state := SLEEPING, chan := Other(ch), ctx := InSleep)), c, Done(i))
    case Wake(i, ch, k, who, saw) =>
      if k < n then At(WakeUpIf(s, k, Other(ch)), c, Wake(i, ch, k + 1, who, saw))
      else At(s.(chans := s.chans - {ch}), c, User(i))
    case ForkScan(i, k) =>
      if k >= n then At(s, c, User(i))
      else if s.procs[k].state != UNUSED then At(s, c, ForkScan(i, k + 1))
      else if choice.Fail? then At(s, c, User(i))
      else if choice.Undo? then At(Put(s, k, FREED), c, User(i))
      else At(Put(s, k, s.procs[k].(state := RUNNABLE, parent := Some(i), ctx := Fresh)), c, User(i))
    case Exit0(i) => At(WakeUpIf(s, INIT, OfProc(INIT)), c, Exit1(i))
    case Exit1(i) => At(s, c, Exit2(i, s.procs[i].parent.value))
    case Exit2(i, op) => At(Lock(s, op, c), c, Exit3(i, op))
    case Exit3(i, op) => At(Lock(s, i, c), c, Exit4(i, op, 0))
    case Exit4(i, op, k) =>
      if k < n then At(s, c, if s.procs[k].parent == Some(i) then Exit5(i, op, k) else Exit4(i, op, k + 1))
      else
        var t := WakeUpIf(s, op, OfProc(op));
        At(Unlock(Put(t, i, t.procs[i].(state := ZOMBIE, ctx := Dead)), op), c, Done(i))
    case Exit5(i, op, k) => At(Put(s, k, s.procs[k].(parent := Some(INIT))), c, Exit4(i, op, k + 1))
    case WaitScan(i, k, havekids, nohang) =>
      if k < n then At(s, c, if s.procs[k].parent == Some(i) then WaitChild(i, k, nohang)
                             else WaitScan(i, k + 1, havekids, nohang))
      else if !havekids || s.procs[i].killed || nohang then At(Unlock(s, i), c, User(i))
      else At(Put(s, i, s.procs[i].(state := SLEEPING, chan := OfProc(i), ctx := InWait(nohang))), c, Done(i))
    case WaitChild(i, k, nohang) =>
      if s.procs[k].state != ZOMBIE then At(s, c, WaitScan(i, k + 1, true, nohang))
      else if choice.Fail? then At(Unlock(s, i), c, User(i))
      else At(Unlock(Put(s, k, FREED), i), c, User(i))
  }

  /** The calls a process can make. */
  function NextUser(s: State, c: nat, i: nat, choice: Choice): (t: State)
    requires Ready(s, c, choice) && s.cpus[c] == User(i)
    ensures |t.locks| == |t.on| == |t.woken| == |t.procs| == |s.procs| && |t.cpus| == |s.cpus|
  {
    match choice
    case Yield => At(Lock(Put(s, i, s.procs[i].(state := RUNNABLE, ctx := InYield)), i, c), c, Done(i))
    case Fork => At(s, c, ForkScan(i, 0))
    case Exit => At(s, c, Exit0(i))
    case Wait(nohang) => At(Lock(s, i, c), c, WaitScan(i, 0, false, nohang))
    case Sleep(ch) => At(s.(chans := s.chans[ch := c]), c, Hold(i, ch))
    case Wakeup(ch) =>
      var who := set j | 0 <= j < |s.procs| && Dozing(s, j, ch);
      At(s.(chans := s.chans[ch := c]), c, Wake(i, ch, 0, who, s.woken))
    case Kill(k) =>
      var t := if s.procs[k].state == SLEEPING then WakeUp(s, k) else s;
      Put(t, k, t.procs[k].(killed := true))
    case _ => s
  }

  // ---------- the invariant ----------

  predicate Alive(p: Proc) {
    p.state != UNUSED && p.state != ZOMBIE
  }

  /** No child of `i` among the first `k` entries is a zombie. */
  ghost predicate NoZombies(procs: seq<Proc>, i: nat, k: nat) {
    forall j: nat | j < k && j < |procs| :: procs[j].parent == Some(i) ==> procs[j].state != ZOMBIE
  }

  /** None of the first `k` entries is a child of `i`. */
  ghost predicate NoChildren(procs: seq<Proc>, i: nat, k: nat) {
    forall j: nat | j < k && j < |procs| :: procs[j].parent != Some(i)
  }

  ghost predicate ProcOk(s: State, j: nat)
    requires Shaped(s) && j < |s.procs|
  {
    var p := s.procs[j];
    && (j == INIT ==> Alive(p))
    && (p.state == UNUSED ==> p.parent == None && p.chan == NoChan)
    && (j != INIT && p.state != UNUSED ==>
          p.parent.Some? && p.parent.value != j && p.parent.value < |s.procs| && Alive(s.procs[p.parent.value]))
    && (p.state == RUNNING ==> s.on[j].Some?)
    && (s.on[j].Some? ==> s.on[j].value < |s.cpus| && ProcOf(s.cpus[s.on[j].value]) == Some(j))
    && (s.locks[j].Some? ==> s.locks[j].value < |s.cpus| && j in Holds(s.cpus[s.locks[j].value]))
    && (j != INIT && p.state == SLEEPING && p.chan == OfProc(j) ==> NoZombies(s.procs, j, |s.procs|))
  }

  ghost predicate PcOk(s: State, c: nat, pc: Pc)
    requires Shaped(s)
  {
    && InRange(s, pc)
    && (ProcOf(pc).Some? ==> s.on[pc.i] == Some(c) && (pc.Done? <==> s.procs[pc.i].state != RUNNING)
                             && s.procs[pc.i].state != UNUSED)
    && (forall j | j in Holds(pc) :: s.locks[j] == Some(c))
    && (HoldsChan(pc).Some? ==> HoldsChan(pc).value in s.chans && s.chans[HoldsChan(pc).value] == c)
    && CodeOk(s, pc)
  }

  ghost predicate CodeOk(s: State, pc: Pc)
    requires Shaped(s) && InRange(s, pc)
  {
    match pc
    case Wake(_, ch, k, who, saw) => |saw| == |s.procs| && forall j | j in who :: Woken(s, ch, k, saw, j)
    case Exit0(i) => i != INIT
    case Exit1(i) => i != INIT
    case Exit2(i, op) => i != INIT && i != op && ParentOr(s, i, op)
    case Exit3(i, op) => i != INIT && i != op && ParentOr(s, i, op)
    case Exit4(i, op, k) => i != INIT && i != op && ParentOr(s, i, op) && NoChildren(s.procs, i, k)
    case Exit5(i, op, k) => i != INIT && i != op && ParentOr(s, i, op) && NoChildren(s.procs, i, k)
        && s.procs[k].parent == Some(i)
    case WaitScan(i, k, _, _) => i != INIT ==> NoZombies(s.procs, i, k)
    case WaitChild(i, k, _) => s.procs[k].parent == Some(i) && (i != INIT ==> NoZombies(s.procs, i, k))
    case _ => true
  }

  /** A process that had gone to sleep is woken, or the wakeup has yet to come to it. */
  ghost predicate Woken(s: State, ch: nat, k: nat, saw: seq<nat>, j: nat)
    requires Shaped(s) && |saw| == |s.procs|
  {
    j < |s.procs| && (s.woken[j] > saw[j] || (j >= k && s.woken[j] == saw[j] && Dozing(s, j, ch)))
  }

  /** The parent is still the one exit has read, or has given the process to init. */
  ghost predicate ParentOr(s: State, i: nat, op: nat)
    requires i < |s.procs|
  {
    s.procs[i].parent == Some(op) || s.procs[i].parent == Some(INIT)
  }

  ghost predicate Inv(s: State) {
    && Shaped(s)
    && (forall j | 0 <= j < |s.procs| :: ProcOk(s, j))
    && (forall c | 0 <= c < |s.cpus| :: PcOk(s, c, s.cpus[c]))
    && (forall ch | ch in s.chans :: s.chans[ch] < |s.cpus| && HoldsChan(s.cpus[s.chans[ch]]) == Some(ch))
  }

  // ---------- what a CPU leaves to the others ----------

  ghost predicate Guarantee(s: State, t: State, c: nat) {
    && Shaped(s) && Shaped(t) && |t.procs| == |s.procs| && |t.cpus| == |s.cpus|
    && (forall d | 0 <= d < |s.cpus| && d != c :: t.cpus[d] == s.cpus[d])
    && (forall j | 0 <= j < |s.procs| :: Leaves(s, t, c, j))
    && (forall ch | ch in s.chans && s.chans[ch] != c :: ch in t.chans && t.chans[ch] == s.chans[ch])
  }

  /** Entry `j` as seen by the other CPUs: their locks and running processes are theirs, a process
      becomes a zombie under its parent's lock, and sleepers stay asleep until they are woken. */
  ghost predicate Leaves(s: State, t: State, c: nat, j: nat)
    requires Shaped(s) && Shaped(t) && |t.procs| == |s.procs| && |t.cpus| == |s.cpus| && j < |s.procs|
  {
    && (s.locks[j].Some? && s.locks[j] != Some(c) ==> t.locks[j] == s.locks[j])
    && (s.on[j].Some? && s.on[j] != Some(c) ==> t.on[j] == s.on[j] && t.procs[j].state == s.procs[j].state)
    && ParentLeft(s, t, c, j)
    && (t.procs[j].state == ZOMBIE && s.procs[j].state != ZOMBIE ==>
          t.procs[j].parent == s.procs[j].parent && (s.procs[j].parent.Some? && s.procs[j].parent.value != INIT ==>
            s.procs[j].parent.value < |s.locks| && s.locks[s.procs[j].parent.value] == Some(c)))
    && (t.woken[j] > s.woken[j] || (t.woken[j] == s.woken[j] && forall ch: nat | Dozing(s, j, ch) :: Dozing(t, j, ch)))
  }

  /** Only a process itself makes an entry its child or lets it go, and it lets it go to init. */
  ghost predicate ParentLeft(s: State, t: State, c: nat, j: nat)
    requires Shaped(s) && Shaped(t) && |t.procs| == |s.procs| && j < |s.procs|
  {
    var p, q := s.procs[j].parent, t.procs[j].parent;
    p == q ||
    (&& (p.Some? && p.value < |s.on| ==> s.on[p.value] == Some(c))
     && (q.Some? && q.value < |s.on| ==> q.value == INIT || s.on[q.value] == Some(c))
     && (s.on[j].Some? && s.on[j] != Some(c) ==> q == Some(INIT)))
  }

  lemma OthersKept(s: State, t: State, c: nat, d: nat)
    requires Inv(s) && Guarantee(s, t, c) && d < |s.cpus| && d != c
    ensures PcOk(t, d, t.cpus[d])
  {
    var pc := s.cpus[d];
    assert PcOk(s, d, pc);
    if ProcOf(pc).Some? {
      assert Leaves(s, t, c, pc.i);
      OthersCode(s, t, c, d, pc);
    }
    forall j | j in Holds(pc) ensures t.locks[j] == Some(d) {
      assert Leaves(s, t, c, j);
    }
  }

  lemma OthersCode(s: State, t: State, c: nat, d: nat, pc: Pc)
    requires Guarantee(s, t, c) && d != c && !pc.Scan? && PcOk(s, d, pc) && t.on[pc.i] == Some(d)
    ensures CodeOk(t, pc)
  {
    var i := pc.i;
    assert Leaves(s, t, c, i);
    match pc
    case Wake(_, ch, k, who, saw) =>
      forall j | j in who ensures Woken(t, ch, k, saw, j) {
        assert Woken(s, ch, k, saw, j) && Leaves(s, t, c, j);
      }
    case Exit4(_, _, k) =>
      ChildrenLeft(s, t, c, d, i, k);
    case Exit5(_, _, k) =>
      ChildrenLeft(s, t, c, d, i, k);
      assert Leaves(s, t, c, k);
    case WaitScan(_, k, _, _) =>
      ZombiesLeft(s, t, c, d, i, k);
    case WaitChild(_, k, _) =>
      ZombiesLeft(s, t, c, d, i, k);
      assert Leaves(s, t, c, k);
    case _ =>
  }

  lemma ChildrenLeft(s: State, t: State, c: nat, d: nat, i: nat, k: nat)
    requires Guarantee(s, t, c) && d != c && i < |s.procs| && s.on[i] == Some(d) && i != INIT
             && NoChildren(s.procs, i, k)
    ensures NoChildren(t.procs, i, k)
  {
    forall j: nat | j < k && j < |t.procs| ensures t.procs[j].parent != Some(i) {
      assert Leaves(s, t, c, j) && s.procs[j].parent != Some(i);
    }
  }

  lemma ZombiesLeft(s: State, t: State, c: nat, d: nat, i: nat, k: nat)
    requires Guarantee(s, t, c) && d != c && i < |s.procs| && s.on[i] == Some(d) && s.locks[i] == Some(d)
    requires i != INIT ==> NoZombies(s.procs, i, k)
    ensures i != INIT ==> NoZombies(t.procs, i, k)
  {
    forall j: nat | i != INIT && j < k && j < |t.procs|
      ensures t.procs[j].parent == Some(i) ==> t.procs[j].state != ZOMBIE
    {
      assert Leaves(s, t, c, j) && (s.procs[j].parent == Some(i) ==> s.procs[j].state != ZOMBIE);
    }
  }

  // ---------- every step keeps the invariant ----------

  ghost predicate ChansOk(s: State) {
    forall ch | ch in s.chans :: s.chans[ch] < |s.cpus| && HoldsChan(s.cpus[s.chans[ch]]) == Some(ch)
  }

  /** What is to be shown of each step. */
  ghost predicate StepOk(s: State, t: State, c: nat) {
    && Guarantee(s, t, c) && c < |t.cpus| && PcOk(t, c, t.cpus[c]) && ChansOk(t)
    && forall j | 0 <= j < |t.procs| :: ProcOk(t, j)
  }

  lemma Assemble(s: State, t: State, c: nat)
    requires Inv(s) && StepOk(s, t, c)
    ensures Inv(t)
  {
    forall d | 0 <= d < |t.cpus| ensures PcOk(t, d, t.cpus[d]) {
      if d != c {
        OthersKept(s, t, c, d);
      }
    }
  }

  /** Locks change hands only between nobody and CPU `c`, and `c` is where its code holds them. */
  ghost predicate LocksOf(s: State, t: State, c: nat)
    requires Shaped(s) && Shaped(t) && |t.procs| == |s.procs| && c < |t.cpus|
  {
    forall j | 0 <= j < |s.procs| ::
      && (t.locks[j] == s.locks[j] || (s.locks[j] in {None, Some(c)} && t.locks[j] in {None, Some(c)}))
      && (t.locks[j] == Some(c) ==> j in Holds(t.cpus[c]))
  }

  /** A step of CPU `c` that leaves the table as it is. */
  lemma Quiet(s: State, t: State, c: nat)
    requires Inv(s) && c < |s.cpus| == |t.cpus| && Shaped(t) && t.procs == s.procs && t.on == s.on && t.woken == s.woken
    requires t.cpus == s.cpus[c := t.cpus[c]] && ProcOf(t.cpus[c]) == ProcOf(s.cpus[c]) && LocksOf(s, t, c)
    requires forall ch | ch in s.chans && s.chans[ch] != c :: ch in t.chans && t.chans[ch] == s.chans[ch]
    requires !s.cpus[c].Doze?
    ensures Guarantee(s, t, c) && forall j | 0 <= j < |t.procs| :: ProcOk(t, j)
  {
    forall j | 0 <= j < |s.procs| ensures ProcOk(t, j) && Leaves(s, t, c, j) {
      assert ProcOk(s, j);
    }
  }

  /** Going on in the code without touching the table. */
  predicate GoesOn(s: State, c: nat, choice: Choice)
    requires Ready(s, c, choice)
  {
    match s.cpus[c]
    case Scan(k) => k >= |s.procs| || s.procs[k].state != RUNNABLE
    case User(_) => choice.Fork? || choice.Exit?
    case ForkScan(_, k) => k >= |s.procs| || s.procs[k].state != UNUSED || choice.Fail?
    case Exit1(_) => true
    case Exit4(_, _, k) => k < |s.procs|
    case WaitScan(_, k, _, _) => k < |s.procs|
    case WaitChild(_, k, _) => s.procs[k].state != ZOMBIE
    case _ => false
  }

  /** Only the place in the code is different, and not what is held there. */
  lemma OnlyPc(s: State, c: nat, choice: Choice)
    requires Ready(s, c, choice) && GoesOn(s, c, choice)
    ensures var pc, pc' := s.cpus[c], Next(s, c, choice).cpus[c];
            && Next(s, c, choice) == At(s, c, pc') && ProcOf(pc') == ProcOf(pc) && Holds(pc') == Holds(pc)
            && HoldsChan(pc') == HoldsChan(pc) && !pc.Doze?
  {
  }

  lemma ExitGoesOn(s: State, c: nat, choice: Choice)
    requires Inv(s) && Ready(s, c, choice) && PcOk(s, c, s.cpus[c])
    requires s.cpus[c].Exit1? || (s.cpus[c].Exit4? && s.cpus[c].k < |s.procs|)
    ensures PcOk(Next(s, c, choice), c, Next(s, c, choice).cpus[c])
  {
    hide Inv, NoChildren, NoZombies, Woken;
    var i := s.cpus[c].i;
    if s.cpus[c].Exit1? {
      ParentOf(s, i);
    } else {
      NoChildrenNext(s.procs, i, s.cpus[c].k);
    }
  }

  lemma WaitGoesOn(s: State, c: nat, choice: Choice)
    requires Ready(s, c, choice) && PcOk(s, c, s.cpus[c]) && GoesOn(s, c, choice)
    requires s.cpus[c].WaitScan? || s.cpus[c].WaitChild?
    ensures PcOk(Next(s, c, choice), c, Next(s, c, choice).cpus[c])
  {
    hide NoChildren, NoZombies, Woken;
    NoZombiesNext(s.procs, s.cpus[c].i, s.cpus[c].k);
  }

  lemma RestGoesOn(s: State, c: nat, choice: Choice)
    requires Ready(s, c, choice) && PcOk(s, c, s.cpus[c]) && GoesOn(s, c, choice)
    requires s.cpus[c].Scan? || s.cpus[c].User? || s.cpus[c].ForkScan?
    ensures PcOk(Next(s, c, choice), c, Next(s, c, choice).cpus[c])
  {
    hide NoChildren, NoZombies, Woken;
  }

  lemma StepQuiet(s: State, c: nat, choice: Choice)
    requires Inv(s) && Ready(s, c, choice) && GoesOn(s, c, choice)
    ensures StepOk(s, Next(s, c, choice), c)
  {
    hide Inv, PcOk, ProcOk, Leaves, ChansOk, Next, Holds, HoldsChan, ProcOf;
    var t := Next(s, c, choice);
    HeldBy(s, c);
    OnlyPc(s, c, choice);
    Quiet(s, t, c);
    ChansKept(s, t, c);
    var pc := s.cpus[c];
    if pc.Exit1? || pc.Exit4? {
      ExitGoesOn(s, c, choice);
    } else if pc.WaitScan? || pc.WaitChild? {
      WaitGoesOn(s, c, choice);
    } else {
      RestGoesOn(s, c, choice);
    }
  }

  lemma ParentOf(s: State, i: nat)
    requires Inv(s) && i < |s.procs| && s.procs[i].parent.Some? && i != INIT && s.procs[i].state != UNUSED
    ensures s.procs[i].parent.value != i && s.procs[i].parent.value < |s.procs|
  {
    assert ProcOk(s, i);
  }

  lemma NoChildrenNext(procs: seq<Proc>, i: nat, k: nat)
    requires NoChildren(procs, i, k)
    ensures k < |procs| && procs[k].parent != Some(i) ==> NoChildren(procs, i, k + 1)
  {
  }

  lemma NoChildrenStart(procs: seq<Proc>, i: nat)
    ensures NoChildren(procs, i, 0)
  {
  }

  lemma NoZombiesNext(procs: seq<Proc>, i: nat, k: nat)
    ensures NoZombies(procs, i, k) && k < |procs| && (procs[k].parent != Some(i) || procs[k].state != ZOMBIE)
            ==> NoZombies(procs, i, k + 1)
    ensures NoZombies(procs, i, 0)
  {
  }

  lemma ChansTaken(s: State, t: State, c: nat, ch: nat)
    requires Inv(s) && c < |s.cpus| == |t.cpus| && ch !in s.chans && t.chans == s.chans[ch := c]
    requires t.cpus == s.cpus[c := t.cpus[c]] && HoldsChan(s.cpus[c]) == None && HoldsChan(t.cpus[c]) == Some(ch)
    ensures ChansOk(t) && forall x | x in s.chans && s.chans[x] != c :: x in t.chans && t.chans[x] == s.chans[x]
  {
  }

  lemma ChansGiven(s: State, t: State, c: nat, ch: nat)
    requires Inv(s) && c < |s.cpus| == |t.cpus| && t.chans == s.chans - {ch}
    requires t.cpus == s.cpus[c := t.cpus[c]] && HoldsChan(s.cpus[c]) == Some(ch) && HoldsChan(t.cpus[c]) == None
    ensures ChansOk(t) && forall x | x in s.chans && s.chans[x] != c :: x in t.chans && t.chans[x] == s.chans[x]
  {
    assert PcOk(s, c, s.cpus[c]);
  }

  lemma ChansKept(s: State, t: State, c: nat)
    requires Inv(s) && c < |s.cpus| == |t.cpus| && t.chans == s.chans && t.cpus == s.cpus[c := t.cpus[c]]
    requires HoldsChan(t.cpus[c]) == HoldsChan(s.cpus[c])
    ensures ChansOk(t)
  {
  }

  lemma HeldBy(s: State, c: nat)
    requires Inv(s) && c < |s.cpus|
    ensures Shaped(s) && PcOk(s, c, s.cpus[c])
            && forall j | 0 <= j < |s.procs| && s.locks[j] == Some(c) :: j in Holds(s.cpus[c])
  {
    forall j | 0 <= j < |s.procs| && s.locks[j] == Some(c) ensures j in Holds(s.cpus[c]) {
      assert ProcOk(s, j);
    }
  }

  /** Taking a lock, and nothing more. */
  lemma StepLock(s: State, c: nat, choice: Choice)
    requires Inv(s) && Ready(s, c, choice)
             && ((s.cpus[c].User? && choice.Wait?) || s.cpus[c].Exit2? || s.cpus[c].Exit3?)
    ensures StepOk(s, Next(s, c, choice), c)
  {
    hide Inv, ProcOk, Leaves, NoZombies, NoChildren, ChansOk, Dozing;
    var t, pc := Next(s, c, choice), s.cpus[c];
    HeldBy(s, c);
    ChansKept(s, t, c);
    Quiet(s, t, c);
    NoZombiesNext(s.procs, pc.i, 0);
    NoChildrenStart(s.procs, pc.i);
  }

  /** Giving a lock back, and nothing more; sleep takes the process's own lock first. */
  lemma StepUnlock(s: State, c: nat, choice: Choice)
    requires Inv(s) && Ready(s, c, choice)
    requires match s.cpus[c]
      case Hold(_, _) => !choice.Fail?
      case WaitScan(i, k, havekids, nohang) => k >= |s.procs| && (!havekids || s.procs[i].killed || nohang)
      case WaitChild(_, k, _) => s.procs[k].state == ZOMBIE && choice.Fail?
      case _ => false
    ensures StepOk(s, Next(s, c, choice), c)
  {
    hide Inv, ProcOk, Leaves, NoZombies, NoChildren, ChansOk, Dozing;
    var t, pc := Next(s, c, choice), s.cpus[c];
    HeldBy(s, c);
    if pc.Hold? {
      ChansGiven(s, t, c, pc.ch);
    } else {
      ChansKept(s, t, c);
    }
    Quiet(s, t, c);
  }

  lemma StepChan(s: State, c: nat, choice: Choice)
    requires Inv(s) && Ready(s, c, choice)
    requires match s.cpus[c]
      case User(_) => choice.Sleep? || choice.Wakeup?
      case Hold(_, _) => choice.Fail?
      case Wake(_, _, k, _, _) => k >= |s.procs|
      case _ => false
    ensures StepOk(s, Next(s, c, choice), c)
  {
    hide Inv, ProcOk, Leaves, NoZombies, NoChildren, ChansOk;
    var t, pc := Next(s, c, choice), s.cpus[c];
    HeldBy(s, c);
    if pc.Hold? || pc.Wake? {
      ChansGiven(s, t, c, pc.ch);
    } else {
      ChansTaken(s, t, c, choice.ch);
    }
    Quiet(s, t, c);
    NoZombiesNext(s.procs, pc.i, 0);
    NoChildrenStart(s.procs, pc.i);
  }

  /** A process that is not running, and whose lock is free, is on no CPU. */
  lemma OffCpu(s: State, j: nat)
    requires Inv(s) && j < |s.procs| && s.locks[j] == None && s.procs[j].state != RUNNING
    ensures s.on[j] == None
  {
    assert ProcOk(s, j);
    if s.on[j].Some? {
      assert PcOk(s, s.on[j].value, s.cpus[s.on[j].value]);
    }
  }

  /** Entry `i` changes, but its parent does not and it stays alive: the other entries stay in order. */
  lemma OneMoved(s: State, t: State, c: nat, i: nat)
    requires Inv(s) && c < |s.cpus| == |t.cpus| && Shaped(t) && |t.procs| == |s.procs| && i < |s.procs|
    requires t.procs == s.procs[i := t.procs[i]] && t.on == s.on[i := t.on[i]] && t.woken == s.woken[i := t.woken[i]]
    requires t.procs[i].parent == s.procs[i].parent && Alive(s.procs[i]) && Alive(t.procs[i])
    requires t.cpus == s.cpus[c := t.cpus[c]] && LocksOf(s, t, c)
    requires ProcOf(s.cpus[c]) == Some(i) || ProcOf(t.cpus[c]) == ProcOf(s.cpus[c]) || ProcOf(s.cpus[c]) == None
    requires s.cpus[c].Doze? ==> s.cpus[c].i == i
    ensures forall j | 0 <= j < |s.procs| && j != i :: ProcOk(t, j) && Leaves(s, t, c, j)
  {
    assert PcOk(s, c, s.cpus[c]);
    forall j | 0 <= j < |s.procs| && j != i ensures ProcOk(t, j) && Leaves(s, t, c, j) {
      assert ProcOk(s, j);
    }
  }

  lemma StepRun(s: State, c: nat, choice: Choice)
    requires Inv(s) && Ready(s, c, choice)
    requires s.cpus[c].Scan? && s.cpus[c].k < |s.procs| && s.procs[s.cpus[c].k].state == RUNNABLE
    ensures StepOk(s, Next(s, c, choice), c)
  {
    var t, k := Next(s, c, choice), s.cpus[c].k;
    HeldBy(s, c);
    OffCpu(s, k);
    assert ProcOk(s, k);
    OneMoved(s, t, c, k);
    ChansKept(s, t, c);
  }

  lemma StepDone(s: State, c: nat, choice: Choice)
    requires Inv(s) && Ready(s, c, choice) && s.cpus[c].Done?
    ensures StepOk(s, Next(s, c, choice), c)
  {
    var t, i := Next(s, c, choice), s.cpus[c].i;
    HeldBy(s, c);
    forall j | 0 <= j < |s.procs| ensures ProcOk(t, j) && Leaves(s, t, c, j) {
      assert ProcOk(s, j);
    }
  }

  lemma StepBack(s: State, c: nat, choice: Choice)
    requires Inv(s) && Ready(s, c, choice) && s.cpus[c].Back?
    ensures StepOk(s, Next(s, c, choice), c)
  {
    var t, i := Next(s, c, choice), s.cpus[c].i;
    assert InRange(s, Back(i));
    hide Inv, PcOk, ProcOk, Leaves, ChansOk, Next, LocksOf, Holds, HoldsChan, ProcOf;
    HeldBy(s, c);
    AllOk(s, i, i, i);
    BackEntry(s, c, choice, i);
    OneMoved(s, t, c, i);
    ChansKept(s, t, c);
  }

  /** The entry of the process that has the CPU again. */
  lemma BackEntry(s: State, c: nat, choice: Choice, i: nat)
    requires Ready(s, c, choice) && s.cpus[c] == Back(i) && PcOk(s, c, s.cpus[c]) && i < |s.procs| && ProcOk(s, i)
    requires forall j | 0 <= j < |s.procs| && s.locks[j] == Some(c) :: j in Holds(s.cpus[c])
    ensures var t := Next(s, c, choice);
            && t.procs == s.procs[i := t.procs[i]] && t.procs[i].parent == s.procs[i].parent
            && Alive(s.procs[i]) && Alive(t.procs[i]) && t.on == s.on && t.woken == s.woken && t.chans == s.chans
            && t.cpus == s.cpus[c := t.cpus[c]] && ProcOf(t.cpus[c]) == ProcOf(s.cpus[c]) == Some(i)
            && HoldsChan(t.cpus[c]) == HoldsChan(s.cpus[c]) && LocksOf(s, t, c)
            && ProcOk(t, i) && Leaves(s, t, c, i) && PcOk(t, c, t.cpus[c])
  {
    hide Woken, NoChildren;
  }

  /** Giving up the CPU: yield, sleep, and wait. */
  predicate GivesUp(s: State, c: nat, choice: Choice)
    requires Ready(s, c, choice)
  {
    match s.cpus[c]
    case User(_) => choice.Yield?
    case Doze(_, _) => true
    case WaitScan(i, k, havekids, nohang) => k >= |s.procs| && havekids && !s.procs[i].killed && !nohang
    case _ => false
  }

  /** The entry of the process that gives up the CPU. */
  lemma OffEntry(s: State, c: nat, choice: Choice, i: nat)
    requires Ready(s, c, choice) && GivesUp(s, c, choice) && PcOk(s, c, s.cpus[c]) && i < |s.procs| && ProcOk(s, i)
    requires s.cpus[c].i == i && forall j | 0 <= j < |s.procs| && s.locks[j] == Some(c) :: j in Holds(s.cpus[c])
    ensures var t := Next(s, c, choice);
            && t.procs == s.procs[i := t.procs[i]] && t.procs[i].parent == s.procs[i].parent
            && Alive(s.procs[i]) && Alive(t.procs[i]) && t.on == s.on && t.woken == s.woken && t.chans == s.chans
            && t.cpus == s.cpus[c := Done(i)] && LocksOf(s, t, c) && ProcOk(t, i) && Leaves(s, t, c, i)
            && PcOk(t, c, Done(i))
  {
    hide Woken, NoChildren;
    var t := Next(s, c, choice);
    assert s.cpus[c].WaitScan? && i != INIT ==> NoZombies(t.procs, i, |t.procs|);
  }

  lemma StepOff(s: State, c: nat, choice: Choice)
    requires Inv(s) && Ready(s, c, choice) && GivesUp(s, c, choice)
    ensures StepOk(s, Next(s, c, choice), c)
  {
    hide Inv, PcOk, ProcOk, Leaves, ChansOk, Next, LocksOf;
    var t, i := Next(s, c, choice), s.cpus[c].i;
    HeldBy(s, c);
    AllOk(s, i, i, i);
    OffEntry(s, c, choice, i);
    OneMoved(s, t, c, i);
    ChansKept(s, t, c);
  }

  /** A sleeper made runnable, by wakeup or by exit for init. */
  lemma StepWake(s: State, c: nat, choice: Choice)
    requires Inv(s) && Ready(s, c, choice) && (s.cpus[c].Exit0? || (s.cpus[c].Wake? && s.cpus[c].k < |s.procs|))
    ensures StepOk(s, Next(s, c, choice), c)
  {
    hide Inv, ProcOk, Leaves, ChansOk, Dozing;
    var t, k := Next(s, c, choice), if s.cpus[c].Wake? then s.cpus[c].k else INIT;
    HeldBy(s, c);
    if s.procs[k].state != RUNNING {
      OffCpu(s, k);
    }
    WakeTable(s, t, c, k);
    if s.cpus[c].Wake? {
      WakeCode(s, t, c, k);
    }
  }

  lemma StepKill(s: State, c: nat, choice: Choice)
    requires Inv(s) && Ready(s, c, choice) && s.cpus[c].User? && choice.Kill?
    ensures StepOk(s, Next(s, c, choice), c)
  {
    hide Inv, ProcOk, Leaves, ChansOk, Dozing;
    var t, k := Next(s, c, choice), choice.k;
    HeldBy(s, c);
    if s.procs[k].state != RUNNING {
      OffCpu(s, k);
    }
    WakeTable(s, t, c, k);
  }

  lemma WakeTable(s: State, t: State, c: nat, k: nat)
    requires Inv(s) && c < |s.cpus| == |t.cpus| && Shaped(t) && |t.procs| == |s.procs| && k < |s.procs|
    requires t.procs == s.procs[k := t.procs[k]] && t.on == s.on && t.woken == s.woken[k := t.woken[k]]
             && t.locks == s.locks
    requires t.chans == s.chans && t.cpus == s.cpus[c := t.cpus[c]] && ProcOf(t.cpus[c]) == ProcOf(s.cpus[c])
    requires HoldsChan(t.cpus[c]) == HoldsChan(s.cpus[c]) && Holds(t.cpus[c]) == Holds(s.cpus[c]) && !s.cpus[c].Doze?
    requires t.procs[k].parent == s.procs[k].parent && t.procs[k].chan == s.procs[k].chan && s.locks[k] == None
    requires || (t.procs[k].state == s.procs[k].state && t.woken[k] == s.woken[k])
             || (s.procs[k].state == SLEEPING && t.procs[k].state == RUNNABLE && t.woken[k] == s.woken[k] + 1
                 && s.on[k] == None)
    ensures Guarantee(s, t, c) && ChansOk(t) && forall j | 0 <= j < |t.procs| :: ProcOk(t, j)
  {
    hide Inv, ProcOk, Leaves, ChansOk;
    HeldBy(s, c);
    forall j | 0 <= j < |s.procs| ensures ProcOk(t, j) && Leaves(s, t, c, j) {
      AllOk(s, j, k, k);
      WakeEntry(s, t, c, k, j);
    }
    ChansKept(s, t, c);
  }

  lemma WakeEntry(s: State, t: State, c: nat, k: nat, j: nat)
    requires EntriesOk(s, j, k, k) && c < |s.cpus| == |t.cpus| && Shaped(t) && |t.procs| == |s.procs|
    requires t.procs == s.procs[k := t.procs[k]] && t.on == s.on && t.woken == s.woken[k := t.woken[k]]
             && t.locks == s.locks
    requires t.cpus == s.cpus[c := t.cpus[c]] && ProcOf(t.cpus[c]) == ProcOf(s.cpus[c])
    requires Holds(t.cpus[c]) == Holds(s.cpus[c]) && !s.cpus[c].Doze?
    requires t.procs[k].parent == s.procs[k].parent && t.procs[k].chan == s.procs[k].chan && s.locks[k] == None
    requires || (t.procs[k].state == s.procs[k].state && t.woken[k] == s.woken[k])
             || (s.procs[k].state == SLEEPING && t.procs[k].state == RUNNABLE && t.woken[k] == s.woken[k] + 1
                 && s.on[k] == None)
    ensures ProcOk(t, j) && Leaves(s, t, c, j)
  {
    hide Holds;
    if NoZombies(s.procs, j, |s.procs|) {
      assert NoZombies(t.procs, j, |s.procs|);
    }
  }

  lemma WakeCode(s: State, t: State, c: nat, k: nat)
    requires Inv(s) && c < |s.cpus| && s.cpus[c].Wake? && s.cpus[c].k == k < |s.procs| && s.locks[k] == None
    requires var pc := s.cpus[c]; t == At(WakeUpIf(s, k, Other(pc.ch)), c, Wake(pc.i, pc.ch, k + 1, pc.who, pc.saw))
    ensures CodeOk(t, t.cpus[c])
  {
    var pc := s.cpus[c];
    assert PcOk(s, c, pc);
    forall j | j in pc.who ensures Woken(t, pc.ch, k + 1, pc.saw, j) {
      assert Woken(s, pc.ch, k, pc.saw, j);
      if j == k && s.on[k].Some? {
        assert ProcOk(s, k) && PcOk(s, s.on[k].value, s.cpus[s.on[k].value]);
      }
    }
  }

  lemma StepFork(s: State, c: nat, choice: Choice)
    requires Inv(s) && Ready(s, c, choice) && s.cpus[c].ForkScan? && !choice.Fail? && !choice.Undo?
    requires s.cpus[c].k < |s.procs| && s.procs[s.cpus[c].k].state == UNUSED
    ensures StepOk(s, Next(s, c, choice), c)
  {
    hide Inv, ProcOk, Leaves, ChansOk;
    var t, i, k := Next(s, c, choice), s.cpus[c].i, s.cpus[c].k;
    HeldBy(s, c);
    forall j | 0 <= j < |s.procs| ensures ProcOk(t, j) && Leaves(s, t, c, j) {
      ForkEntry(s, t, c, i, k, j);
    }
    ChansKept(s, t, c);
  }

  lemma ForkEntry(s: State, t: State, c: nat, i: nat, k: nat, j: nat)
    requires Inv(s) && c < |s.cpus| && s.cpus[c].ForkScan? && s.cpus[c].i == i && s.cpus[c].k == k && k < |s.procs|
             && j < |s.procs|
    requires i < |s.procs| && s.procs[k].state == UNUSED && s.locks[k] == None
    requires t == At(Put(s, k, s.procs[k].(state := RUNNABLE, parent := Some(i), ctx := Fresh)), c, User(i))
    ensures ProcOk(t, j) && Leaves(s, t, c, j)
  {
    HeldBy(s, c);
    OffCpu(s, k);
    assert ProcOk(s, k) && ProcOk(s, i) && Alive(s.procs[i]) && ProcOk(s, j);
    if NoZombies(s.procs, j, |s.procs|) {
      assert NoZombies(t.procs, j, |s.procs|);
    }
  }

  /** fork fails with an entry in hand. */
  lemma StepUndo(s: State, c: nat, choice: Choice)
    requires Inv(s) && Ready(s, c, choice) && s.cpus[c].ForkScan? && choice.Undo?
    requires s.cpus[c].k < |s.procs| && s.procs[s.cpus[c].k].state == UNUSED
    ensures StepOk(s, Next(s, c, choice), c)
  {
    hide Inv, ProcOk, Leaves, ChansOk;
    var t, k := Next(s, c, choice), s.cpus[c].k;
    HeldBy(s, c);
    forall j | 0 <= j < |s.procs| ensures ProcOk(t, j) && Leaves(s, t, c, j) {
      AllOk(s, j, k, k);
      UndoEntry(s, t, c, k, j);
    }
    ChansKept(s, t, c);
  }

  lemma UndoEntry(s: State, t: State, c: nat, k: nat, j: nat)
    requires EntriesOk(s, j, k, k) && c < |s.cpus| && s.cpus[c].ForkScan? && s.procs[k].state == UNUSED
    requires t == At(Put(s, k, FREED), c, User(s.cpus[c].i))
    ensures ProcOk(t, j) && Leaves(s, t, c, j)
  {
    if NoZombies(s.procs, j, |s.procs|) {
      assert NoZombies(t.procs, j, |s.procs|);
    }
  }

  lemma StepReparent(s: State, c: nat, choice: Choice)
    requires Inv(s) && Ready(s, c, choice) && s.cpus[c].Exit5?
    ensures StepOk(s, Next(s, c, choice), c)
  {
    hide Inv, ProcOk, Leaves, ChansOk;
    var t, i, k := Next(s, c, choice), s.cpus[c].i, s.cpus[c].k;
    HeldBy(s, c);
    forall j | 0 <= j < |s.procs| ensures ProcOk(t, j) && Leaves(s, t, c, j) {
      ReparentEntry(s, t, c, i, k, j);
    }
    ChansKept(s, t, c);
    assert NoChildren(t.procs, i, k + 1);
  }

  lemma ReparentEntry(s: State, t: State, c: nat, i: nat, k: nat, j: nat)
    requires Inv(s) && c < |s.cpus| && s.cpus[c].Exit5? && s.cpus[c].i == i && s.cpus[c].k == k && k < |s.procs|
             && j < |s.procs|
    requires t == At(Put(s, k, s.procs[k].(parent := Some(INIT))), c, Exit4(i, s.cpus[c].op, k + 1))
    ensures ProcOk(t, j) && Leaves(s, t, c, j)
  {
    hide Inv;
    HeldBy(s, c);
    AllOk(s, k, i, INIT);
    AllOk(s, j, j, j);
    ReparentProc(s, t, c, i, k, j);
  }

  lemma ReparentProc(s: State, t: State, c: nat, i: nat, k: nat, j: nat)
    requires EntriesOk(s, k, i, INIT) && j < |s.procs| && ProcOk(s, j) && c < |s.cpus| && PcOk(s, c, s.cpus[c])
    requires s.cpus[c].Exit5? && s.cpus[c].i == i && s.cpus[c].k == k
    requires t == At(Put(s, k, s.procs[k].(parent := Some(INIT))), c, Exit4(i, s.cpus[c].op, k + 1))
    ensures ProcOk(t, j) && Leaves(s, t, c, j)
  {
    hide Woken, HoldsChan;
    if NoZombies(s.procs, j, |s.procs|) && j != INIT {
      assert NoZombies(t.procs, j, |s.procs|);
    }
  }

  /** The last step of exit: no entry is a child any more, and a parent asleep in wait is woken. */
  lemma StepZombie(s: State, c: nat, choice: Choice)
    requires Inv(s) && Ready(s, c, choice) && s.cpus[c].Exit4? && s.cpus[c].k >= |s.procs|
    ensures StepOk(s, Next(s, c, choice), c)
  {
    hide Inv, ProcOk, Leaves, ChansOk;
    var t, i, op := Next(s, c, choice), s.cpus[c].i, s.cpus[c].op;
    HeldBy(s, c);
    forall j | 0 <= j < |s.procs| ensures ProcOk(t, j) && Leaves(s, t, c, j) {
      ZombieEntry(s, t, c, i, op, j);
    }
    ChansKept(s, t, c);
  }

  ghost predicate EntriesOk(s: State, i: nat, j: nat, k: nat) {
    Shaped(s) && i < |s.procs| && j < |s.procs| && k < |s.procs| && ProcOk(s, i) && ProcOk(s, j) && ProcOk(s, k)
  }

  lemma ZombieEntry(s: State, t: State, c: nat, i: nat, op: nat, j: nat)
    requires Inv(s) && c < |s.cpus| && s.cpus[c].Exit4? && s.cpus[c].i == i && s.cpus[c].op == op
             && s.cpus[c].k >= |s.procs|
    requires i < |s.procs| && op < |s.procs| && j < |s.procs|
    requires var u := WakeUpIf(s, op, OfProc(op));
             t == At(Unlock(Put(u, i, u.procs[i].(state := ZOMBIE, ctx := Dead)), op), c, Done(i))
    ensures ProcOk(t, j) && Leaves(s, t, c, j)
  {
    hide Inv;
    HeldBy(s, c);
    AllOk(s, i, op, j);
    LockedOff(s, c, op);
    ZombieProc(s, t, c, i, op, j);
    ZombieLeaves(s, t, c, i, op, j);
  }

  /** A sleeper whose lock another CPU holds is on no CPU. */
  lemma LockedOff(s: State, c: nat, j: nat)
    requires Inv(s) && c < |s.cpus| && j < |s.procs| && s.locks[j] == Some(c) && ProcOf(s.cpus[c]) != Some(j)
    ensures s.procs[j].state != RUNNING ==> s.on[j] == None
  {
    assert ProcOk(s, j);
    if s.on[j].Some? {
      assert PcOk(s, s.on[j].value, s.cpus[s.on[j].value]);
    }
  }

  lemma AllOk(s: State, i: nat, j: nat, k: nat)
    requires Inv(s) && i < |s.procs| && j < |s.procs| && k < |s.procs|
    ensures EntriesOk(s, i, j, k)
  {
  }

  lemma ZombieProc(s: State, t: State, c: nat, i: nat, op: nat, j: nat)
    requires EntriesOk(s, i, op, j) && c < |s.cpus| && PcOk(s, c, s.cpus[c])
    requires s.cpus[c].Exit4? && s.cpus[c].i == i && s.cpus[c].op == op && s.cpus[c].k >= |s.procs|
    requires var u := WakeUpIf(s, op, OfProc(op));
             t == At(Unlock(Put(u, i, u.procs[i].(state := ZOMBIE, ctx := Dead)), op), c, Done(i))
    ensures ProcOk(t, j)
  {
    hide Dozing, HoldsChan, Woken, ProcOf, Holds, CodeOk, PcOk, NoZombies;
    ZombieFacts(s, c, i, op, j);
    ZombieSleeper(s, t, c, i, op, j);
  }

  lemma ZombieFacts(s: State, c: nat, i: nat, op: nat, j: nat)
    requires EntriesOk(s, i, op, j) && c < |s.cpus| && PcOk(s, c, s.cpus[c])
    requires s.cpus[c].Exit4? && s.cpus[c].i == i && s.cpus[c].op == op && s.cpus[c].k >= |s.procs|
    ensures ProcOf(s.cpus[c]) == Some(i) && Holds(s.cpus[c]) == {i, op}
    ensures ProcOf(Done(i)) == Some(i) && Holds(Done(i)) == {i}
    ensures s.procs[j].parent != Some(i) && i != op && i != INIT
    ensures s.on[i] == Some(c) && s.locks[i] == Some(c) && s.locks[op] == Some(c) && s.procs[i].state == RUNNING
    ensures ParentOr(s, i, op)
  {
    hide Dozing, HoldsChan, Woken, NoZombies;
  }

  /** Whoever is asleep in wait afterwards is not the parent of the new zombie. */
  lemma ZombieSleeper(s: State, t: State, c: nat, i: nat, op: nat, j: nat)
    requires EntriesOk(s, i, op, j) && c < |s.cpus| && PcOk(s, c, s.cpus[c])
    requires s.cpus[c].Exit4? && s.cpus[c].i == i && s.cpus[c].op == op && s.cpus[c].k >= |s.procs|
    requires var u := WakeUpIf(s, op, OfProc(op));
             t == At(Unlock(Put(u, i, u.procs[i].(state := ZOMBIE, ctx := Dead)), op), c, Done(i))
    ensures j != INIT && t.procs[j].state == SLEEPING && t.procs[j].chan == OfProc(j)
            ==> NoZombies(t.procs, j, |t.procs|)
  {
    hide Dozing, HoldsChan, Woken, ProcOf, Holds;
    if NoZombies(s.procs, j, |s.procs|) && s.procs[i].parent != Some(j) {
      assert NoZombies(t.procs, j, |s.procs|);
    }
  }

  lemma ZombieLeaves(s: State, t: State, c: nat, i: nat, op: nat, j: nat)
    requires EntriesOk(s, i, op, j) && c < |s.cpus| && PcOk(s, c, s.cpus[c])
    requires s.cpus[c].Exit4? && s.cpus[c].i == i && s.cpus[c].op == op && s.cpus[c].k >= |s.procs|
    requires var u := WakeUpIf(s, op, OfProc(op));
             t == At(Unlock(Put(u, i, u.procs[i].(state := ZOMBIE, ctx := Dead)), op), c, Done(i))
    requires s.procs[op].state != RUNNING ==> s.on[op] == None
    ensures Shaped(t) && |t.procs| == |s.procs| && |t.cpus| == |s.cpus| && Leaves(s, t, c, j)
  {
    hide NoZombies, NoChildren, PcOk, CodeOk, Holds, ProcOf;
    ZombieFacts(s, c, i, op, j);
  }

  /** wait frees a zombie, which has no children. */
  lemma StepReap(s: State, c: nat, choice: Choice)
    requires Inv(s) && Ready(s, c, choice) && s.cpus[c].WaitChild? && !choice.Fail?
    requires s.procs[s.cpus[c].k].state == ZOMBIE
    ensures StepOk(s, Next(s, c, choice), c)
  {
    hide Inv, ProcOk, Leaves, ChansOk;
    var t, i, k := Next(s, c, choice), s.cpus[c].i, s.cpus[c].k;
    HeldBy(s, c);
    forall j | 0 <= j < |s.procs| ensures ProcOk(t, j) && Leaves(s, t, c, j) {
      ReapEntry(s, t, c, i, k, j);
    }
    ChansKept(s, t, c);
  }

  lemma ReapEntry(s: State, t: State, c: nat, i: nat, k: nat, j: nat)
    requires Inv(s) && c < |s.cpus| && s.cpus[c].WaitChild? && s.cpus[c].i == i && s.cpus[c].k == k && k < |s.procs|
             && j < |s.procs|
    requires i < |s.procs| && s.procs[k].state == ZOMBIE && s.locks[k] == None
    requires t == At(Unlock(Put(s, k, FREED), i), c, User(i))
    ensures ProcOk(t, j) && Leaves(s, t, c, j)
  {
    HeldBy(s, c);
    OffCpu(s, k);
    assert ProcOk(s, k) && ProcOk(s, i) && ProcOk(s, j);
    hide Inv, Woken, NoChildren, HoldsChan;
    if NoZombies(s.procs, j, |s.procs|) {
      assert NoZombies(t.procs, j, |s.procs|);
    }
  }

  lemma StepKeepsInv(s: State, c: nat, choice: Choice)
    requires Inv(s) && Ready(s, c, choice)
    ensures Inv(Next(s, c, choice)) && StepOk(s, Next(s, c, choice), c)
  {
    hide StepOk, Next, Inv;
    StepIsOk(s, c, choice);
    Assemble(s, Next(s, c, choice), c);
  }

  lemma StepIsOk(s: State, c: nat, choice: Choice)
    requires Inv(s) && Ready(s, c, choice)
    ensures StepOk(s, Next(s, c, choice), c)
  {
    hide StepOk, Next, Inv;
    match s.cpus[c]
    case Scan(k) =>
      if k < |s.procs| && s.procs[k].state == RUNNABLE { StepRun(s, c, choice); } else { StepQuiet(s, c, choice); }
    case Done(_) => StepDone(s, c, choice);
    case Back(_) => StepBack(s, c, choice);
    case User(_) =>
      match choice {
        case Yield => StepOff(s, c, choice);
        case Fork => StepQuiet(s, c, choice);
        case Exit => StepQuiet(s, c, choice);
        case Wait(_) => StepLock(s, c, choice);
        case Sleep(_) => StepChan(s, c, choice);
        case Wakeup(_) => StepChan(s, c, choice);
        case Kill(_) => StepKill(s, c, choice);
      }
    case Hold(_, _) =>
      if choice.Fail? { StepChan(s, c, choice); } else { StepUnlock(s, c, choice); }
    case Doze(_, _) => StepOff(s, c, choice);
    case Wake(_, _, k, _, _) =>
      if k < |s.procs| { StepWake(s, c, choice); } else { StepChan(s, c, choice); }
    case ForkScan(_, k) =>
      if k >= |s.procs| || s.procs[k].state != UNUSED || choice.Fail? { StepQuiet(s, c, choice); }
      else if choice.Undo? { StepUndo(s, c, choice); }
      else { StepFork(s, c, choice); }
    case Exit0(_) => StepWake(s, c, choice);
    case Exit1(_) => StepQuiet(s, c, choice);
    case Exit2(_, _) => StepLock(s, c, choice);
    case Exit3(_, _) => StepLock(s, c, choice);
    case Exit4(_, _, k) =>
      if k < |s.procs| { StepQuiet(s, c, choice); } else { StepZombie(s, c, choice); }
    case Exit5(_, _, _) => StepReparent(s, c, choice);
    case WaitScan(i, k, havekids, nohang) =>
      if k < |s.procs| { StepQuiet(s, c, choice); }
      else if !havekids || s.procs[i].killed || nohang { StepUnlock(s, c, choice); }
      else { StepOff(s, c, choice); }
    case WaitChild(_, k, _) =>
      if s.procs[k].state != ZOMBIE { StepQuiet(s, c, choice); }
      else if choice.Fail? { StepUnlock(s, c, choice); }
      else { StepReap(s, c, choice); }
  }
}
