/** Runs of the process table from boot, and what holds throughout them. */
module ProcessRuns {
  import opened Prelude
  import opened Processes

  datatype Step = Step(cpu: nat, choice: Choice)

  /** After boot: init is ready to run, the other entries are unused, every CPU is in its scheduler. */
  function Boot(entries: nat, cpus: nat): (s: State)
    requires entries > 0
  {
    State(seq(entries, i => if i == INIT then FREED.(state := RUNNABLE) else FREED),
          seq(entries, _ => None), map[], seq(cpus, _ => Scan(0)), seq(entries, _ => None), seq(entries, _ => 0))
  }

  lemma BootInv(entries: nat, cpus: nat)
    requires entries > 0
    ensures Inv(Boot(entries, cpus))
  {
  }

  /** `tr` is the sequence of states that `steps` leads through. */
  ghost predicate IsRun(tr: seq<State>, steps: seq<Step>) {
    |tr| == |steps| + 1 && forall i | 0 <= i < |steps| ::
      Ready(tr[i], steps[i].cpu, steps[i].choice) && tr[i + 1] == Next(tr[i], steps[i].cpu, steps[i].choice)
  }

  ghost predicate BootRun(tr: seq<State>, steps: seq<Step>) {
    IsRun(tr, steps) && |tr[0].procs| > 0 && tr[0] == Boot(|tr[0].procs|, |tr[0].cpus|)
  }

  lemma RunKeepsInv(tr: seq<State>, steps: seq<Step>, n: nat)
    requires BootRun(tr, steps) && n < |tr|
    ensures Inv(tr[n])
  {
    hide Inv, Next;
    if n == 0 {
      BootInv(|tr[0].procs|, |tr[0].cpus|);
    } else {
      RunKeepsInv(tr, steps, n - 1);
      assert tr[n - 1 + 1] == Next(tr[n - 1], steps[n - 1].cpu, steps[n - 1].choice);
      StepKeepsInv(tr[n - 1], steps[n - 1].cpu, steps[n - 1].choice);
    }
  }

  /** Whenever a process's lock is free, it is RUNNING exactly if it is the process of a CPU, and then
      of one CPU only. */
  lemma RunningOnOneCpu(tr: seq<State>, steps: seq<Step>, n: nat, p: nat)
    requires BootRun(tr, steps) && n < |tr| && p < |tr[n].procs| == |tr[n].locks| && tr[n].locks[p] == None
    ensures tr[n].procs[p].state == RUNNING <==> exists c :: 0 <= c < |tr[n].cpus| && ProcOf(tr[n].cpus[c]) == Some(p)
    ensures forall c, d | 0 <= c < |tr[n].cpus| && 0 <= d < |tr[n].cpus|
                          && ProcOf(tr[n].cpus[c]) == Some(p) && ProcOf(tr[n].cpus[d]) == Some(p) :: c == d
  {
    RunKeepsInv(tr, steps, n);
    var s := tr[n];
    assert ProcOk(s, p);
    forall c | 0 <= c < |s.cpus| && ProcOf(s.cpus[c]) == Some(p)
      ensures s.on[p] == Some(c) && s.procs[p].state == RUNNING
    {
      assert PcOk(s, c, s.cpus[c]);
    }
  }

  /** Every process except init has a parent that is neither unused nor a zombie. */
  lemma ParentsAlive(tr: seq<State>, steps: seq<Step>, n: nat, p: nat)
    requires BootRun(tr, steps) && n < |tr| && p < |tr[n].procs| && p != INIT && tr[n].procs[p].state != UNUSED
    ensures var q := tr[n].procs[p].parent; q.Some? && q.value < |tr[n].procs| && Alive(tr[n].procs[q.value])
  {
    RunKeepsInv(tr, steps, n);
    assert ProcOk(tr[n], p);
  }

  /** A process other than init that is asleep in wait has no zombie child. */
  lemma NoZombieOfSleeper(tr: seq<State>, steps: seq<Step>, n: nat, p: nat, k: nat)
    requires BootRun(tr, steps) && n < |tr| && p < |tr[n].procs| && k < |tr[n].procs| && p != INIT
    requires tr[n].procs[p].state == SLEEPING && tr[n].procs[p].chan == OfProc(p) && tr[n].procs[k].parent == Some(p)
    ensures tr[n].procs[k].state != ZOMBIE
  {
    RunKeepsInv(tr, steps, n);
    assert ProcOk(tr[n], p);
  }

  /** A zombie ends by being freed, by its parent. */
  lemma ReapedByParent(tr: seq<State>, steps: seq<Step>, n: nat, j: nat)
    requires BootRun(tr, steps) && n < |steps| && j < |tr[n].procs| == |tr[n + 1].procs|
    requires tr[n].procs[j].state == ZOMBIE && tr[n + 1].procs[j].state != ZOMBIE
    ensures tr[n + 1].procs[j] == FREED
    ensures steps[n].cpu < |tr[n].cpus| && tr[n].procs[j].parent.Some?
            && tr[n].procs[j].parent == ProcOf(tr[n].cpus[steps[n].cpu])
  {
    hide Inv;
    RunKeepsInv(tr, steps, n);
    ZombieStays(tr[n], steps[n].cpu, steps[n].choice, j);
  }

  lemma ZombieStays(s: State, c: nat, choice: Choice, j: nat)
    requires Inv(s) && Ready(s, c, choice) && j < |s.procs| && s.procs[j].state == ZOMBIE
    ensures var t := Next(s, c, choice);
            && |t.procs| == |s.procs|
            && (t.procs[j].state != ZOMBIE
                ==> t.procs[j] == FREED && s.procs[j].parent == ProcOf(s.cpus[c]) && s.procs[j].parent.Some?)
  {
    assert PcOk(s, c, s.cpus[c]);
  }

  // ---------- init and its zombies ----------

  predicate AsleepInWait(s: State, j: nat) {
    j < |s.procs| && s.procs[j].state == SLEEPING && s.procs[j].chan == OfProc(j)
  }

  /** What holds of every other process: asleep in wait, init has no zombie child. */
  ghost predicate InitOk(s: State) {
    AsleepInWait(s, INIT) ==> NoZombies(s.procs, INIT, |s.procs|)
  }

  /** The steps that leave init asleep with a zombie child: an exit that has read another parent before it
      was given to init; giving a zombie to init, who was woken before that; and init's own scan, which
      sleeps on what it has not seen. */
  ghost predicate Strands(s: State, c: nat) {
    c < |s.cpus| && InRange(s, s.cpus[c]) &&
    match s.cpus[c]
    case Exit4(i, op, k) => k >= |s.procs| && s.procs[i].parent == Some(INIT) && op != INIT && AsleepInWait(s, INIT)
    case Exit5(i, op, k) => s.procs[k].state == ZOMBIE && AsleepInWait(s, INIT)
    case WaitScan(i, k, havekids, nohang) =>
      i == INIT && k >= |s.procs| && havekids && !s.procs[i].killed && !nohang && !NoZombies(s.procs, INIT, |s.procs|)
    case _ => false
  }

  /** One entry changes, and no child of init becomes a zombie by it. */
  lemma InitOkChanged(s: State, t: State, k: nat)
    requires InitOk(s) && k < |s.procs| == |t.procs| && t.procs == s.procs[k := t.procs[k]]
    requires AsleepInWait(t, INIT) ==> AsleepInWait(s, INIT)
    requires AsleepInWait(t, INIT) && t.procs[k].state == ZOMBIE && t.procs[k].parent == Some(INIT)
             ==> s.procs[k].state == ZOMBIE && s.procs[k].parent == Some(INIT)
    ensures InitOk(t)
  {
  }

  lemma InitOkSame(s: State, t: State)
    requires InitOk(s) && t.procs == s.procs
    ensures InitOk(t)
  {
  }

  lemma InitUser(s: State, c: nat, i: nat, choice: Choice)
    requires InitOk(s) && Inv(s) && Ready(s, c, choice) && s.cpus[c] == User(i)
    ensures InitOk(NextUser(s, c, i, choice))
  {
    hide Inv, InitOk, Dozing, Holds, HoldsChan;
    var t := NextUser(s, c, i, choice);
    if choice.Yield? {
      InitOkChanged(s, t, i);
    } else if choice.Kill? {
      InitOkChanged(s, t, choice.k);
    } else {
      InitOkSame(s, t);
    }
  }

  /** The end of exit: the process is a zombie from now on. */
  lemma InitExit(s: State, c: nat, choice: Choice)
    requires InitOk(s) && Inv(s) && Ready(s, c, choice) && s.cpus[c].Exit4? && s.cpus[c].k >= |s.procs|
    ensures InitOk(Next(s, c, choice)) <==> !Strands(s, c)
  {
    hide Inv, Dozing, Holds, HoldsChan, InitOk;
    CodeOf(s, c);
    var t, i, op := Next(s, c, choice), s.cpus[c].i, s.cpus[c].op;
    var u := WakeUpIf(s, op, OfProc(op));
    InitOkChanged(s, u, op);
    if Strands(s, c) {
      ZombieOfInit(t, i);
    } else {
      InitOkChanged(u, t, i);
    }
  }

  lemma ZombieOfInit(s: State, k: nat)
    requires k < |s.procs| && s.procs[k].state == ZOMBIE && s.procs[k].parent == Some(INIT) && AsleepInWait(s, INIT)
    ensures !InitOk(s)
  {
  }

  /** A child is given to init. */
  lemma InitGiven(s: State, c: nat, choice: Choice)
    requires InitOk(s) && Inv(s) && Ready(s, c, choice) && s.cpus[c].Exit5?
    ensures InitOk(Next(s, c, choice)) <==> !Strands(s, c)
  {
    hide Inv, Dozing, Holds, HoldsChan, InitOk;
    CodeOf(s, c);
    var t, k := Next(s, c, choice), s.cpus[c].k;
    if Strands(s, c) {
      ZombieOfInit(t, k);
    } else {
      InitOkChanged(s, t, k);
    }
  }

  lemma InitWaits(s: State, c: nat, choice: Choice)
    requires InitOk(s) && Inv(s) && Ready(s, c, choice) && s.cpus[c].WaitScan?
    ensures InitOk(Next(s, c, choice)) <==> !Strands(s, c)
  {
    hide Inv, Dozing, Holds, HoldsChan;
    CodeOf(s, c);
    var t, i := Next(s, c, choice), s.cpus[c].i;
    if t.procs == s.procs {
      InitOkSame(s, t);
    } else if i != INIT {
      InitOkChanged(s, t, i);
    } else {
      assert forall j: nat | j < |s.procs| ::
               t.procs[j].parent == s.procs[j].parent && (j != INIT ==> t.procs[j] == s.procs[j]);
      NotZombieItself(s);
    }
  }

  lemma NotZombieItself(s: State)
    requires Inv(s)
    ensures s.procs[INIT].state != ZOMBIE
  {
    assert ProcOk(s, INIT);
  }

  /** Every other step. */
  lemma InitRest(s: State, c: nat, choice: Choice)
    requires InitOk(s) && Inv(s) && Ready(s, c, choice) && !s.cpus[c].User? && !s.cpus[c].Exit5? && !s.cpus[c].WaitScan?
    requires s.cpus[c].Exit4? ==> s.cpus[c].k < |s.procs|
    ensures InitOk(Next(s, c, choice)) && !Strands(s, c)
  {
    hide Inv, Dozing, Holds, HoldsChan, InitOk;
    var t, pc := Next(s, c, choice), s.cpus[c];
    if t.procs == s.procs {
      InitOkSame(s, t);
    } else {
      var k := if pc.Doze? || pc.Back? then pc.i else if pc.Exit0? then INIT else pc.k;
      InitOkChanged(s, t, k);
    }
  }

  /** A step keeps init's sleep sound exactly if it is none of these. */
  lemma InitStepIff(s: State, c: nat, choice: Choice)
    requires Inv(s) && Ready(s, c, choice) && InitOk(s)
    ensures InitOk(Next(s, c, choice)) <==> !Strands(s, c)
  {
    hide Inv, InitOk, Next, NextUser;
    match s.cpus[c]
    case User(i) =>
      InitUser(s, c, i, choice);
      UserStep(s, c, choice);
    case Exit4(_, _, k) =>
      if k >= |s.procs| {
        InitExit(s, c, choice);
      } else {
        InitRest(s, c, choice);
      }
    case Exit5(_, _, _) => InitGiven(s, c, choice);
    case WaitScan(_, _, _, _) => InitWaits(s, c, choice);
    case _ => InitRest(s, c, choice);
  }

  ghost predicate AllInitOk(tr: seq<State>, n: nat) {
    forall i | 0 <= i < n && i < |tr| :: InitOk(tr[i])
  }

  ghost predicate NeverStrands(tr: seq<State>, steps: seq<Step>, n: nat) {
    forall i | 0 <= i < n && i < |steps| && i < |tr| :: !Strands(tr[i], steps[i].cpu)
  }

  /** Throughout a run init asleep in wait has no zombie child, if and only if no step of the run strands one. */
  lemma InitRunIff(tr: seq<State>, steps: seq<Step>)
    requires BootRun(tr, steps)
    ensures AllInitOk(tr, |tr|) <==> NeverStrands(tr, steps, |steps|)
  {
    hide Inv, InitOk, Strands, Next, Ready;
    if NeverStrands(tr, steps, |steps|) {
      NeverStranded(tr, steps, |steps|);
    } else {
      var i :| 0 <= i < |steps| && Strands(tr[i], steps[i].cpu);
      RunKeepsInv(tr, steps, i);
      if InitOk(tr[i]) {
        InitStepIff(tr[i], steps[i].cpu, steps[i].choice);
        assert !InitOk(tr[i + 1]);
      }
    }
  }

  lemma {:induction false} NeverStranded(tr: seq<State>, steps: seq<Step>, n: nat)
    requires BootRun(tr, steps) && n < |tr| && NeverStrands(tr, steps, n)
    ensures AllInitOk(tr, n + 1)
  {
    hide Inv, InitOk, Strands, Next, Ready;
    if n == 0 {
      BootInitOk(tr[0]);
    } else {
      NeverStranded(tr, steps, n - 1);
      RunKeepsInv(tr, steps, n - 1);
      assert tr[n - 1 + 1] == Next(tr[n - 1], steps[n - 1].cpu, steps[n - 1].choice);
      InitStepIff(tr[n - 1], steps[n - 1].cpu, steps[n - 1].choice);
    }
  }

  lemma BootInitOk(s: State)
    requires |s.procs| > 0 && s == Boot(|s.procs|, |s.cpus|)
    ensures InitOk(s)
  {
  }

  /** wait with WNOHANG never sleeps. */
  lemma NohangNeverSleeps(tr: seq<State>, steps: seq<Step>, n: nat, j: nat)
    requires BootRun(tr, steps) && n < |tr| && j < |tr[n].procs|
    ensures tr[n].procs[j].ctx != InWait(true)
  {
    hide Next, Ready;
    if n > 0 {
      assert tr[n - 1 + 1] == Next(tr[n - 1], steps[n - 1].cpu, steps[n - 1].choice);
      NextFrame(tr[n - 1], steps[n - 1].cpu, steps[n - 1].choice, 0);
      NohangNeverSleeps(tr, steps, n - 1, j);
      NohangStep(tr[n - 1], steps[n - 1].cpu, steps[n - 1].choice, j);
    }
  }

  lemma NohangStep(s: State, c: nat, choice: Choice, j: nat)
    requires Ready(s, c, choice) && j < |s.procs| && s.procs[j].ctx != InWait(true)
    ensures j < |Next(s, c, choice).procs| && Next(s, c, choice).procs[j].ctx != InWait(true)
  {
    hide Dozing, Holds, HoldsChan, NextUser;
    if s.cpus[c].User? {
      NohangUser(s, c, s.cpus[c].i, choice, j);
    }
  }

  lemma NohangUser(s: State, c: nat, i: nat, choice: Choice, j: nat)
    requires Ready(s, c, choice) && s.cpus[c] == User(i) && j < |s.procs| && s.procs[j].ctx != InWait(true)
    ensures NextUser(s, c, i, choice).procs[j].ctx != InWait(true)
  {
    hide Dozing, Holds, HoldsChan;
  }

  // ---------- the life of a process ----------

  /** What CPU `c` does next makes entry `j` a new process. */
  ghost predicate Forks(s: State, c: nat, choice: Choice, j: nat)
    requires c < |s.cpus|
  {
    s.cpus[c].ForkScan? && s.cpus[c].k == j && !choice.Fail? && !choice.Undo?
  }

  /** ... wakes entry `j` from where it sleeps: wakeup on that, exit of a child or for init, or kill. */
  ghost predicate Wakes(s: State, c: nat, choice: Choice, j: nat)
    requires c < |s.cpus| && j < |s.procs|
  {
    match s.cpus[c]
    case Wake(_, ch, k, _, _) => k == j && s.procs[j].chan == Other(ch)
    case Exit0(_) => j == INIT && s.procs[j].chan == OfProc(j)
    case Exit4(_, op, k) => k >= |s.procs| && op == j && s.procs[j].chan == OfProc(j)
    case User(_) => choice == Kill(j)
    case _ => false
  }

  /** ... lets entry `j` go to sleep on this: sleep with the lock of the condition given back, or a wait
      that has found children but no zombie. */
  ghost predicate Sleeps(s: State, c: nat, j: nat, chan: Chan)
    requires c < |s.cpus| && j < |s.procs|
  {
    match s.cpus[c]
    case Doze(i, ch) => i == j && chan == Other(ch)
    case WaitScan(i, k, havekids, nohang) =>
      i == j && k >= |s.procs| && havekids && !nohang && !s.procs[j].killed && chan == OfProc(j)
    case _ => false
  }

  /** ... ends entry `j`, all of whose children have been given away. */
  ghost predicate Dies(s: State, c: nat, j: nat)
    requires c < |s.cpus|
  {
    s.cpus[c].Exit4? && s.cpus[c].i == j && s.cpus[c].k >= |s.procs| && NoChildren(s.procs, j, |s.procs|)
  }

  /** ... frees entry `j`, a child of the process that waits. */
  ghost predicate Reaps(s: State, c: nat, choice: Choice, j: nat)
    requires c < |s.cpus| && j < |s.procs|
  {
    s.cpus[c].WaitChild? && s.cpus[c].k == j && !choice.Fail? && s.procs[j].parent == Some(s.cpus[c].i)
  }

  /** The arrows from each state of a process, and what takes it along them. */
  ghost predicate Arrow(s: State, t: State, c: nat, choice: Choice, j: nat)
    requires c < |s.cpus| && j < |s.procs| == |t.procs| == |s.on|
  {
    var p, q := s.procs[j], t.procs[j];
    match p.state
    case UNUSED =>
      if Forks(s, c, choice, j) then q == Proc(RUNNABLE, Some(s.cpus[c].i), NoChan, p.killed, Fresh)
      else q.state == UNUSED
    case RUNNABLE => q.state == if s.cpus[c] == Scan(j) then RUNNING else RUNNABLE
    case RUNNING =>
      && (q.state == RUNNABLE <==> s.cpus[c] == User(j) && choice == Yield)
      && (q.state == SLEEPING <==> Sleeps(s, c, j, q.chan))
      && (q.state == ZOMBIE <==> Dies(s, c, j)) && q.state != UNUSED
    case SLEEPING => q.state == if Wakes(s, c, choice, j) then RUNNABLE else SLEEPING
    case ZOMBIE => if Reaps(s, c, choice, j) then q == FREED else q.state == ZOMBIE
  }

  /** Kill marks the process, and only freeing its entry takes the mark away; a process changes its parent only if
      that dies, and then it is init's. */
  ghost predicate Marks(s: State, t: State, c: nat, choice: Choice, j: nat)
    requires c < |s.cpus| && j < |s.procs| == |t.procs|
  {
    var p, q, pc := s.procs[j], t.procs[j], s.cpus[c];
    && (if Reaps(s, c, choice, j) && p.state == ZOMBIE then q == FREED
        else if pc.ForkScan? && pc.k == j && choice.Undo? && p.state == UNUSED then q == FREED
        else q.killed <==> p.killed || (pc.User? && choice == Kill(j)))
    && (p.state != UNUSED && q.state != UNUSED ==>
          q.parent == if pc.Exit5? && pc.k == j && p.parent == Some(pc.i) then Some(INIT) else p.parent)
  }

  /** A process moves along these arrows, each exactly when the step that belongs to it is taken. */
  lemma StateDiagram(tr: seq<State>, steps: seq<Step>, n: nat, j: nat)
    requires BootRun(tr, steps) && n < |steps| && j < |tr[n].procs|
    ensures var s, t, c, choice := tr[n], tr[n + 1], steps[n].cpu, steps[n].choice;
            && c < |s.cpus| && |t.procs| == |s.procs| == |s.on|
            && Arrow(s, t, c, choice, j) && Marks(s, t, c, choice, j)
  {
    hide Inv, Next, NextUser, Arrow, Marks, ArrowFacts;
    var s, c, choice := tr[n], steps[n].cpu, steps[n].choice;
    RunKeepsInv(tr, steps, n);
    FactsOf(s, c, j);
    NextFrame(s, c, choice, 0);
    match s.cpus[c]
    case User(i) =>
      UserStep(s, c, choice);
      ArrowUser(s, c, i, choice, j);
    case WaitScan(_, _, _, _) => ArrowWait(s, c, choice, j);
    case WaitChild(_, _, _) => ArrowWait(s, c, choice, j);
    case Scan(_) => ArrowRun(s, c, choice, j);
    case Done(_) => ArrowRun(s, c, choice, j);
    case Back(_) => ArrowRun(s, c, choice, j);
    case Exit4(_, _, k) =>
      if k < |s.procs| {
        ArrowExit(s, c, choice, j);
      } else {
        ArrowDie(s, c, choice, j);
      }
    case Hold(_, _) => ArrowSleep(s, c, choice, j);
    case Doze(_, _) => ArrowSleep(s, c, choice, j);
    case Wake(_, _, _, _, _) => ArrowSleep(s, c, choice, j);
    case ForkScan(_, _) => ArrowFork(s, c, choice, j);
    case _ => ArrowExit(s, c, choice, j);
  }

  /** What the invariant says here. */
  ghost predicate ArrowFacts(s: State, c: nat, j: nat)
    requires c < |s.cpus| && InRange(s, s.cpus[c]) && j < |s.procs|
  {
    var pc := s.cpus[c];
    && (ProcOf(pc).Some? ==> (pc.Done? <==> s.procs[pc.i].state != RUNNING) && s.procs[pc.i].state != UNUSED)
    && (s.procs[j].state == UNUSED ==> s.procs[j].parent == None && s.procs[j].chan == NoChan)
    && (pc.Exit4? ==> NoChildren(s.procs, pc.i, pc.k) && pc.i != pc.op)
    && (pc.Exit5? || pc.WaitChild? ==> s.procs[pc.k].parent == Some(pc.i))
  }

  lemma FactsOf(s: State, c: nat, j: nat)
    requires Inv(s) && c < |s.cpus| && j < |s.procs|
    ensures InRange(s, s.cpus[c]) && ArrowFacts(s, c, j)
  {
    assert PcOk(s, c, s.cpus[c]) && ProcOk(s, j);
    hide Inv, Woken, NoZombies, NoChildren, Dozing, Holds, HoldsChan;
  }

  lemma ArrowUser(s: State, c: nat, i: nat, choice: Choice, j: nat)
    requires Ready(s, c, choice) && s.cpus[c] == User(i) && j < |s.procs| && ArrowFacts(s, c, j)
    ensures var t := NextUser(s, c, i, choice); Arrow(s, t, c, choice, j) && Marks(s, t, c, choice, j)
  {
    hide Dozing, Holds, HoldsChan;
  }

  /** The steps of exit and wait. */
  lemma ArrowExit(s: State, c: nat, choice: Choice, j: nat)
    requires Ready(s, c, choice) && j < |s.procs| && ArrowFacts(s, c, j)
    requires var pc := s.cpus[c];
             pc.Exit0? || pc.Exit1? || pc.Exit2? || pc.Exit3? || (pc.Exit4? && pc.k < |s.procs|) || pc.Exit5?
    ensures var t := Next(s, c, choice); Arrow(s, t, c, choice, j) && Marks(s, t, c, choice, j)
  {
    hide Dozing, Holds, HoldsChan, NextUser, NoChildren;
  }

  lemma ArrowDie(s: State, c: nat, choice: Choice, j: nat)
    requires Ready(s, c, choice) && j < |s.procs| && ArrowFacts(s, c, j)
    requires s.cpus[c].Exit4? && s.cpus[c].k >= |s.procs|
    ensures var t := Next(s, c, choice); Arrow(s, t, c, choice, j) && Marks(s, t, c, choice, j)
  {
    hide Dozing, Holds, HoldsChan, NextUser;
  }

  lemma ArrowWait(s: State, c: nat, choice: Choice, j: nat)
    requires Ready(s, c, choice) && j < |s.procs| && ArrowFacts(s, c, j)
    requires s.cpus[c].WaitScan? || s.cpus[c].WaitChild?
    ensures var t := Next(s, c, choice); Arrow(s, t, c, choice, j) && Marks(s, t, c, choice, j)
  {
    hide Dozing, Holds, HoldsChan, NoChildren, NextUser;
  }

  /** The scheduler, sleep, wakeup and fork. */
  lemma ArrowRun(s: State, c: nat, choice: Choice, j: nat)
    requires Ready(s, c, choice) && j < |s.procs| && ArrowFacts(s, c, j)
    requires s.cpus[c].Scan? || s.cpus[c].Done? || s.cpus[c].Back?
    ensures var t := Next(s, c, choice); Arrow(s, t, c, choice, j) && Marks(s, t, c, choice, j)
  {
    hide Dozing, Holds, HoldsChan, NextUser, NoChildren;
  }

  lemma ArrowSleep(s: State, c: nat, choice: Choice, j: nat)
    requires Ready(s, c, choice) && j < |s.procs| && ArrowFacts(s, c, j)
    requires s.cpus[c].Hold? || s.cpus[c].Doze? || s.cpus[c].Wake?
    ensures var t := Next(s, c, choice); Arrow(s, t, c, choice, j) && Marks(s, t, c, choice, j)
  {
    hide Dozing, Holds, HoldsChan, NextUser, NoChildren;
  }

  lemma ArrowFork(s: State, c: nat, choice: Choice, j: nat)
    requires Ready(s, c, choice) && j < |s.procs| && ArrowFacts(s, c, j)
    requires s.cpus[c].ForkScan?
    ensures var t := Next(s, c, choice); Arrow(s, t, c, choice, j) && Marks(s, t, c, choice, j)
  {
    hide Dozing, Holds, HoldsChan, NextUser, NoChildren;
  }

  /** Kill takes a process out of its sleep and marks it ... */
  lemma KillTakesEffect(tr: seq<State>, steps: seq<Step>, n: nat, k: nat)
    requires BootRun(tr, steps) && n < |steps| && steps[n].choice == Kill(k) && k < |tr[n].procs|
    requires steps[n].cpu < |tr[n].cpus| && tr[n].cpus[steps[n].cpu].User?
    ensures k < |tr[n + 1].procs| && tr[n + 1].procs[k].killed && tr[n + 1].procs[k].state != SLEEPING
  {
    hide Next, NextUser, Ready;
    StateDiagram(tr, steps, n, k);
  }

  /** ... and it stays marked until its entry is freed. */
  lemma {:induction false} KilledUntilFreed(tr: seq<State>, steps: seq<Step>, a: nat, b: nat, k: nat)
    requires BootRun(tr, steps) && a <= b < |tr| && k < |tr[a].procs| && tr[a].procs[k].killed
    ensures k < |tr[b].procs|
    ensures tr[b].procs[k].killed || exists m :: a <= m < b && FreedAt(tr, m, k)
    decreases b - a
  {
    hide Next, NextUser, Ready, Boot, Arrow;
    if a < b {
      StateDiagram(tr, steps, a, k);
      SizesKept(tr, steps, a, b);
      if tr[a + 1].procs[k].killed {
        KilledUntilFreed(tr, steps, a + 1, b, k);
      } else {
        FreedHere(tr, steps, a, k);
      }
    }
  }

  /** Step `m` frees entry `k`: a zombie, or one that no process has. */
  ghost predicate FreedAt(tr: seq<State>, m: nat, k: nat) {
    && m + 1 < |tr| && k < |tr[m].procs| && k < |tr[m + 1].procs|
    && (tr[m].procs[k].state == ZOMBIE || tr[m].procs[k].state == UNUSED) && tr[m + 1].procs[k] == FREED
  }

  lemma FreedHere(tr: seq<State>, steps: seq<Step>, n: nat, k: nat)
    requires BootRun(tr, steps) && n < |steps| && k < |tr[n].procs| && tr[n].procs[k].killed
    requires k < |tr[n + 1].procs| && !tr[n + 1].procs[k].killed
    ensures FreedAt(tr, n, k)
  {
    hide Next, NextUser, Ready, Boot;
    StateDiagram(tr, steps, n, k);
  }

  // ---------- scans pass over nobody ----------

  /** Between the two moments entry `j` was once not in this state. */
  ghost predicate Otherwise(tr: seq<State>, a: nat, b: nat, j: nat, state: ProcState) {
    exists m: nat :: a <= m < b && m < |tr| && j < |tr[m].procs| && tr[m].procs[j].state != state
  }

  lemma ScanStepOn(s: State, d: nat, choice: Choice, c: nat)
    requires Ready(s, d, choice) && c < |s.cpus| && c < |Next(s, d, choice).cpus|
    ensures var k', k := Next(s, d, choice).cpus[c], s.cpus[c];
            && (k.ForkScan? && k'.ForkScan? ==>
                  k' == k || (k'.k == k.k + 1 && k.k < |s.procs| && s.procs[k.k].state != UNUSED))
            && (k.Scan? && k'.Scan? && k.k < |s.procs| ==>
                  k' == k || (k'.k == k.k + 1 && s.procs[k.k].state != RUNNABLE))
  {
    if c != d {
      hide Next;
      NextFrame(s, d, choice, c);
    } else {
      hide Dozing, Holds, HoldsChan, NextUser;
    }
  }

  /** From the start of a fork on, all entries the scan has passed were in use when it came by: if it ends
      without a new process, unless for want of memory, no entry was free. */
  lemma ForkMeets(tr: seq<State>, steps: seq<Step>, a: nat, b: nat, c: nat, j: nat)
    requires IsRun(tr, steps) && a < b < |tr| && steps[a] == Step(c, Fork) && c < |tr[a].cpus| && tr[a].cpus[c].User?
    requires forall m | a < m <= b :: c < |tr[m].cpus| && tr[m].cpus[c].ForkScan?
    requires j < tr[b].cpus[c].k
    ensures Otherwise(tr, a, b, j, UNUSED)
    decreases b
  {
    hide Next, NextUser, Ready;
    var s := tr[b - 1];
    assert tr[b - 1 + 1] == Next(s, steps[b - 1].cpu, steps[b - 1].choice);
    if b == a + 1 {
      ForkStart(s, c);
    } else {
      ScanStepOn(s, steps[b - 1].cpu, steps[b - 1].choice, c);
      if j < s.cpus[c].k {
        ForkMeets(tr, steps, a, b - 1, c, j);
      }
    }
  }

  lemma ForkStart(s: State, c: nat)
    requires Ready(s, c, Fork) && s.cpus[c].User?
    ensures Next(s, c, Fork).cpus[c] == ForkScan(s.cpus[c].i, 0)
  {
    hide Dozing, Holds, HoldsChan;
  }

  /** A scheduler that goes on past entry `j` has found it not runnable. */
  lemma {:induction false} SchedulerMeets(tr: seq<State>, steps: seq<Step>, a: nat, b: nat, c: nat, j: nat)
    requires IsRun(tr, steps) && a <= b < |tr| && forall m | a <= m <= b :: c < |tr[m].cpus| && tr[m].cpus[c].Scan?
    requires forall m | a <= m < b :: tr[m].cpus[c].k < |tr[m].procs|
    requires tr[a].cpus[c].k <= j < tr[b].cpus[c].k
    ensures Otherwise(tr, a, b, j, RUNNABLE)
    decreases b
  {
    hide Next, NextUser, Ready;
    assert b > a;
    var s := tr[b - 1];
    assert tr[b - 1 + 1] == Next(s, steps[b - 1].cpu, steps[b - 1].choice);
    ScanStepOn(s, steps[b - 1].cpu, steps[b - 1].choice, c);
    if j < s.cpus[c].k {
      SchedulerMeets(tr, steps, a, b - 1, c, j);
    }
  }

  // ---------- what wait waits for ----------

  ghost predicate HasChild(procs: seq<Proc>, i: nat) {
    exists k: nat :: k < |procs| && procs[k].parent == Some(i)
  }

  /** The scan of wait knows whether there are children, but for init, who is given some at any time. */
  ghost predicate ScanOk(s: State, pc: Pc) {
    pc.WaitScan? ==> if pc.havekids then HasChild(s.procs, pc.i)
                     else pc.i == INIT || NoChildren(s.procs, pc.i, pc.k)
  }

  ghost predicate KidsOk(s: State) {
    && (forall c | 0 <= c < |s.cpus| :: ScanOk(s, s.cpus[c]))
    && forall j: nat | AsleepInWait(s, j) :: HasChild(s.procs, j)
  }

  /** Another CPU's scan. */
  lemma ScanLeft(s: State, t: State, c: nat, d: nat)
    requires Guarantee(s, t, c) && d < |s.cpus| && d != c && PcOk(s, d, s.cpus[d]) && ScanOk(s, s.cpus[d])
    ensures ScanOk(t, t.cpus[d])
  {
    hide CodeOk;
    var pc := s.cpus[d];
    if pc.WaitScan? {
      if pc.havekids {
        ChildLeft(s, t, c, pc.i);
      } else if pc.i != INIT {
        ChildrenLeft(s, t, c, d, pc.i, pc.k);
      }
    }
  }

  /** Only a process itself can lose a child. */
  lemma ChildLeft(s: State, t: State, c: nat, i: nat)
    requires Guarantee(s, t, c) && i < |s.procs| && s.on[i] != Some(c) && HasChild(s.procs, i)
    ensures HasChild(t.procs, i)
  {
    var k: nat :| k < |s.procs| && s.procs[k].parent == Some(i);
    assert Leaves(s, t, c, k);
    assert t.procs[k].parent == Some(i);
  }

  /** The own scan. */
  lemma ScanStep(s: State, c: nat, choice: Choice)
    requires Ready(s, c, choice) && PcOk(s, c, s.cpus[c]) && ScanOk(s, s.cpus[c])
    ensures var t := Next(s, c, choice); c < |t.cpus| && ScanOk(t, t.cpus[c])
  {
    hide NextUser, Dozing, Holds, HoldsChan, Woken, NoZombies;
    if s.cpus[c].User? {
      ScanUser(s, c, s.cpus[c].i, choice);
    } else if s.cpus[c].WaitChild? {
      assert s.procs[s.cpus[c].k].parent == Some(s.cpus[c].i);
    }
  }

  lemma ScanUser(s: State, c: nat, i: nat, choice: Choice)
    requires Ready(s, c, choice) && s.cpus[c] == User(i)
    ensures var t := NextUser(s, c, i, choice); c < |t.cpus| && ScanOk(t, t.cpus[c])
  {
    hide Dozing, Holds, HoldsChan;
  }

  /** Who is asleep in wait was, or falls asleep now after its scan. */
  lemma AsleepStep(s: State, c: nat, choice: Choice, j: nat)
    requires Inv(s) && Ready(s, c, choice) && KidsOk(s) && AsleepInWait(Next(s, c, choice), j)
    ensures HasChild(Next(s, c, choice).procs, j)
  {
    hide Inv, Next, NextUser, KidsOk;
    StepKeepsInv(s, c, choice);
    var t := Next(s, c, choice);
    CodeOf(s, c);
    if AsleepInWait(s, j) {
      assert HasChild(s.procs, j) by { KidsOf(s, c, j); }
      if s.on[j] == Some(c) {
        OwnSleep(s, c, choice, j);
      } else {
        ChildLeft(s, t, c, j);
      }
    } else {
      FallsAsleep(s, c, choice, j);
      KidsOf(s, c, j);
    }
  }

  lemma KidsOf(s: State, c: nat, j: nat)
    requires KidsOk(s) && c < |s.cpus|
    ensures ScanOk(s, s.cpus[c]) && (AsleepInWait(s, j) ==> HasChild(s.procs, j))
  {
  }

  lemma OwnSleep(s: State, c: nat, choice: Choice, j: nat)
    requires Inv(s) && Ready(s, c, choice) && AsleepInWait(s, j) && s.on[j] == Some(c)
    ensures Next(s, c, choice).procs == s.procs
  {
    assert ProcOk(s, j) && PcOk(s, c, s.cpus[c]);
    hide Inv, PcOk, ProcOk;
    assert s.cpus[c].Done?;
  }

  lemma FallsAsleep(s: State, c: nat, choice: Choice, j: nat)
    requires Ready(s, c, choice) && !AsleepInWait(s, j) && AsleepInWait(Next(s, c, choice), j)
    ensures s.cpus[c].WaitScan? && s.cpus[c].i == j && s.cpus[c].havekids
    ensures HasChild(s.procs, j) ==> HasChild(Next(s, c, choice).procs, j)
  {
    hide Dozing, Holds, HoldsChan, NextUser, HasChild;
    if s.cpus[c].User? {
      UserAwake(s, c, s.cpus[c].i, choice, j);
    }
    var t := Next(s, c, choice);
    if HasChild(s.procs, j) && s.cpus[c].WaitScan? {
      KeepsChild(s.procs, s.procs[j], t.procs[j], j);
      assert t.procs == s.procs[j := t.procs[j]];
    }
  }

  lemma UserAwake(s: State, c: nat, i: nat, choice: Choice, j: nat)
    requires Ready(s, c, choice) && s.cpus[c] == User(i) && AsleepInWait(NextUser(s, c, i, choice), j)
    ensures AsleepInWait(s, j)
  {
    hide Dozing, Holds, HoldsChan;
  }

  lemma KeepsChild(procs: seq<Proc>, p: Proc, q: Proc, j: nat)
    requires j < |procs| && procs[j] == p && q.parent == p.parent && HasChild(procs, j)
    ensures HasChild(procs[j := q], j)
  {
    var k: nat :| k < |procs| && procs[k].parent == Some(j);
    assert procs[j := q][k].parent == Some(j);
  }

  lemma KidsStep(s: State, c: nat, choice: Choice)
    requires Inv(s) && Ready(s, c, choice) && KidsOk(s)
    ensures KidsOk(Next(s, c, choice))
  {
    hide Inv, Next, NextUser, ScanOk, HasChild;
    StepKeepsInv(s, c, choice);
    var t := Next(s, c, choice);
    forall d | 0 <= d < |t.cpus| ensures ScanOk(t, t.cpus[d]) {
      CodeOf(s, d);
      if d == c {
        ScanStep(s, c, choice);
      } else {
        ScanLeft(s, t, c, d);
      }
    }
    forall j: nat | AsleepInWait(t, j) ensures HasChild(t.procs, j) {
      AsleepStep(s, c, choice, j);
    }
  }

  lemma {:induction false} RunKeepsKids(tr: seq<State>, steps: seq<Step>, n: nat)
    requires BootRun(tr, steps) && n < |tr|
    ensures KidsOk(tr[n])
  {
    hide Inv, Next, Ready;
    if n > 0 {
      RunKeepsKids(tr, steps, n - 1);
      RunKeepsInv(tr, steps, n - 1);
      assert tr[n - 1 + 1] == Next(tr[n - 1], steps[n - 1].cpu, steps[n - 1].choice);
      KidsStep(tr[n - 1], steps[n - 1].cpu, steps[n - 1].choice);
    }
  }

  /** A process asleep in wait has a child to wait for. */
  lemma SleeperHasChild(tr: seq<State>, steps: seq<Step>, n: nat, j: nat)
    requires BootRun(tr, steps) && n < |tr| && AsleepInWait(tr[n], j)
    ensures exists k: nat :: k < |tr[n].procs| && tr[n].procs[k].parent == Some(j)
  {
    RunKeepsKids(tr, steps, n);
  }

  /** wait at the end of a scan that has met no zombie: a killed process, one that asked not to wait, and one
      without children come back at once, every other falls asleep.  init may have been given a child
      behind the scan and come back all the same. */
  lemma WaitEnds(tr: seq<State>, steps: seq<Step>, n: nat)
    requires BootRun(tr, steps) && n < |steps| && steps[n].cpu < |tr[n].cpus|
    requires tr[n].cpus[steps[n].cpu].WaitScan? && tr[n].cpus[steps[n].cpu].k >= |tr[n].procs|
    ensures var s, t, c := tr[n], tr[n + 1], steps[n].cpu;
            var i, nohang := s.cpus[c].i, s.cpus[c].nohang;
            && i < |s.procs| == |t.procs| == |t.locks| && c < |t.cpus|
            && (s.procs[i].killed || nohang || NoChildren(s.procs, i, |s.procs|) ==>
                  t.cpus[c] == User(i) && t.procs == s.procs && s.procs[i].state == RUNNING && t.locks[i] == None)
            && (i != INIT && !s.procs[i].killed && !nohang && !NoChildren(s.procs, i, |s.procs|) ==>
                  AsleepInWait(t, i))
  {
    hide Inv, KidsOk, Holds, HoldsChan, NextUser;
    RunKeepsInv(tr, steps, n);
    RunKeepsKids(tr, steps, n);
    CodeOf(tr[n], steps[n].cpu);
    KidsOf(tr[n], steps[n].cpu, 0);
  }

  /** A process asleep in wait has not been killed: kill and wait both look under its lock. */
  lemma KilledNeverWaits(tr: seq<State>, steps: seq<Step>, n: nat, j: nat)
    requires BootRun(tr, steps) && n < |tr| && j < |tr[n].procs|
    ensures !KilledInWait(tr[n].procs[j])
  {
    hide Next, Ready;
    if n > 0 {
      assert tr[n - 1 + 1] == Next(tr[n - 1], steps[n - 1].cpu, steps[n - 1].choice);
      NextFrame(tr[n - 1], steps[n - 1].cpu, steps[n - 1].choice, 0);
      KilledNeverWaits(tr, steps, n - 1, j);
      KilledStep(tr[n - 1], steps[n - 1].cpu, steps[n - 1].choice, j);
    }
  }

  predicate KilledInWait(p: Proc) {
    p.killed && p.state == SLEEPING && p.chan.OfProc?
  }

  lemma KilledStep(s: State, c: nat, choice: Choice, j: nat)
    requires Ready(s, c, choice) && j < |s.procs| && !KilledInWait(s.procs[j])
    ensures j < |Next(s, c, choice).procs| && !KilledInWait(Next(s, c, choice).procs[j])
  {
    hide Dozing, Holds, HoldsChan, NextUser;
    if s.cpus[c].User? {
      KilledUser(s, c, s.cpus[c].i, choice, j);
    }
  }

  lemma KilledUser(s: State, c: nat, i: nat, choice: Choice, j: nat)
    requires Ready(s, c, choice) && s.cpus[c] == User(i) && j < |s.procs| && !KilledInWait(s.procs[j])
    ensures !KilledInWait(NextUser(s, c, i, choice).procs[j])
  {
    hide Dozing, Holds, HoldsChan;
  }

  /** A step keeps the sizes of the table and leaves the other CPUs where they are. */
  lemma NextFrame(s: State, c: nat, choice: Choice, d: nat)
    requires Ready(s, c, choice)
    ensures var t := Next(s, c, choice);
            && |t.procs| == |s.procs| && |t.woken| == |s.woken| && |t.cpus| == |s.cpus|
            && (d < |s.cpus| && d != c ==> t.cpus[d] == s.cpus[d])
  {
    hide Dozing, Holds, HoldsChan, NextUser;
    if s.cpus[c].User? {
      UserFrame(s, c, s.cpus[c].i, choice, d);
    }
  }

  lemma UserFrame(s: State, c: nat, i: nat, choice: Choice, d: nat)
    requires Ready(s, c, choice) && s.cpus[c] == User(i)
    ensures d < |s.cpus| && d != c ==> NextUser(s, c, i, choice).cpus[d] == s.cpus[d]
  {
    hide Dozing, Holds, HoldsChan;
  }

  /** A count goes up exactly when a sleeper is made runnable. */
  lemma WokenStep(s: State, c: nat, choice: Choice, j: nat)
    requires Ready(s, c, choice) && j < |s.procs| && PcOk(s, c, s.cpus[c])
    ensures var t := Next(s, c, choice);
            && |t.procs| == |s.procs| && |t.woken| == |s.woken|
            && t.woken[j] == s.woken[j] + if s.procs[j].state == SLEEPING && t.procs[j].state == RUNNABLE then 1 else 0
  {
    hide Dozing, Holds, HoldsChan, NextUser;
    if s.cpus[c].User? {
      WokenUser(s, c, s.cpus[c].i, choice, j);
    }
  }

  lemma WokenUser(s: State, c: nat, i: nat, choice: Choice, j: nat)
    requires Ready(s, c, choice) && s.cpus[c] == User(i) && j < |s.procs| && PcOk(s, c, User(i))
    ensures var t := NextUser(s, c, i, choice);
            t.woken[j] == s.woken[j] + if s.procs[j].state == SLEEPING && t.procs[j].state == RUNNABLE then 1 else 0
  {
    hide Dozing, Holds, HoldsChan;
  }

  /** The code of CPU `c` in a wakeup changes only in where it is. */
  lemma WakeStep(s: State, d: nat, choice: Choice, c: nat)
    requires Ready(s, d, choice) && c < |s.cpus| && s.cpus[c].Wake?
    ensures var t := Next(s, d, choice);
            && |t.cpus| == |s.cpus|
            && (t.cpus[c].Wake? ==> && t.cpus[c].who == s.cpus[c].who && t.cpus[c].saw == s.cpus[c].saw
                                    && t.cpus[c].ch == s.cpus[c].ch)
  {
    if c != d {
      hide Next;
      NextFrame(s, d, choice, c);
    }
  }

  lemma WakeLasts(tr: seq<State>, steps: seq<Step>, a: nat, b: nat, c: nat, who: set<nat>, saw: seq<nat>)
    requires IsRun(tr, steps) && a <= b < |tr| && forall m | a <= m <= b :: c < |tr[m].cpus| && tr[m].cpus[c].Wake?
    requires tr[a].cpus[c].who == who && tr[a].cpus[c].saw == saw
    ensures tr[b].cpus[c].who == who && tr[b].cpus[c].saw == saw
    decreases b - a
  {
    hide Next, Ready;
    if a < b {
      assert tr[a + 1] == Next(tr[a], steps[a].cpu, steps[a].choice);
      WakeStep(tr[a], steps[a].cpu, steps[a].choice, c);
      WakeLasts(tr, steps, a + 1, b, c, who, saw);
    }
  }

  lemma WokenBetween(tr: seq<State>, steps: seq<Step>, a: nat, b: nat, j: nat)
    requires BootRun(tr, steps) && a <= b < |tr| && j < |tr[a].procs| == |tr[a].woken| && j < |tr[b].woken|
             && tr[b].woken[j] != tr[a].woken[j]
    ensures exists m :: a <= m < b && j < |tr[m].procs| && j < |tr[m + 1].procs|
              && tr[m].procs[j].state == SLEEPING && tr[m + 1].procs[j].state == RUNNABLE
    decreases b - a
  {
    hide Next, Inv, Boot;
    assert a < b && tr[a + 1] == Next(tr[a], steps[a].cpu, steps[a].choice);
    RunKeepsInv(tr, steps, a);
    CodeOf(tr[a], steps[a].cpu);
    WokenStep(tr[a], steps[a].cpu, steps[a].choice, j);
    if tr[a + 1].woken[j] == tr[a].woken[j] {
      WokenBetween(tr, steps, a + 1, b, j);
    }
  }

  lemma CodeOf(s: State, c: nat)
    requires Inv(s) && c < |s.cpus|
    ensures PcOk(s, c, s.cpus[c])
  {
  }

  /** No wakeup is lost: a process that has given the condition's lock back to sleep on `ch` when a
      wakeup on `ch` begins is made runnable before that wakeup ends. */
  lemma NoLostWakeup(tr: seq<State>, steps: seq<Step>, a: nat, b: nat, c: nat, ch: nat, j: nat)
    requires BootRun(tr, steps) && a < b < |tr| && steps[a] == Step(c, Wakeup(ch)) && c < |tr[a].cpus|
             && tr[a].cpus[c].User?
    requires forall m | a < m <= b :: c < |tr[m].cpus| && tr[m].cpus[c].Wake?
    requires tr[b].cpus[c].k >= |tr[b].procs|
    requires j < |tr[a].procs| == |tr[a].on| && Dozing(tr[a], j, ch)
    ensures exists m :: a <= m < b && j < |tr[m].procs| && j < |tr[m + 1].procs|
              && tr[m].procs[j].state == SLEEPING && tr[m + 1].procs[j].state == RUNNABLE
  {
    hide Next, Inv;
    assert tr[a + 1] == Next(tr[a], c, Wakeup(ch))
           == NextUser(tr[a], c, tr[a].cpus[c].i, Wakeup(ch)) by { UserStep(tr[a], c, Wakeup(ch)); }
    WakeLasts(tr, steps, a + 1, b, c, tr[a + 1].cpus[c].who, tr[a].woken);
    RunKeepsInv(tr, steps, b);
    Finished(tr[b], c, j);
    SizesKept(tr, steps, a, b);
    WokenBetween(tr, steps, a, b, j);
  }

  lemma UserStep(s: State, c: nat, choice: Choice)
    requires Ready(s, c, choice) && s.cpus[c].User?
    ensures Next(s, c, choice) == NextUser(s, c, s.cpus[c].i, choice)
  {
  }

  /** At its end a wakeup has reached everyone who had gone to sleep when it began. */
  lemma Finished(s: State, c: nat, j: nat)
    requires Inv(s) && c < |s.cpus| && s.cpus[c].Wake? && s.cpus[c].k >= |s.procs| && j in s.cpus[c].who
    ensures j < |s.woken| && j < |s.cpus[c].saw| && s.woken[j] > s.cpus[c].saw[j]
  {
    assert PcOk(s, c, s.cpus[c]);
    assert Woken(s, s.cpus[c].ch, s.cpus[c].k, s.cpus[c].saw, j);
  }

  lemma SizesKept(tr: seq<State>, steps: seq<Step>, a: nat, b: nat)
    requires IsRun(tr, steps) && a <= b < |tr|
    ensures |tr[b].procs| == |tr[a].procs| && |tr[b].woken| == |tr[a].woken|
    decreases b - a
  {
    hide Next, Ready;
    if a < b {
      assert tr[a + 1] == Next(tr[a], steps[a].cpu, steps[a].choice);
      NextFrame(tr[a], steps[a].cpu, steps[a].choice, 0);
      SizesKept(tr, steps, a + 1, b);
    }
  }
}
