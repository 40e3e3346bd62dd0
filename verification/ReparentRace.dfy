/** A run in which init sleeps in wait although it has a zombie child, and every exit wakes the parent it
    has: process 2 exits while init sleeps, and gives init its own zombie child 3. */
module ReparentRace {
  import opened Prelude
  import opened Processes
  import opened ProcessRuns
  import opened ProcessPlays

  /** Four entries, two CPUs. */
  function S0(): (s: State) {
    State([P(RUNNABLE, None, NoChan, Fresh), FREED, FREED, FREED],
          [None, None, None, None], map[], [Scan(0), Scan(0)], [None, None, None, None], [0, 0, 0, 0])
  }

  function S1(): (s: State) {
    State([P(RUNNING, None, NoChan, Fresh), FREED, FREED, FREED],
          [None, None, None, None], map[], [User(0), Scan(0)], [Some(0), None, None, None], [0, 0, 0, 0])
  }

  lemma Leg1()
    ensures Play(S0(), 0, [Go, Go]) == Some(S1())
  {
    Match(Play(S0(), 0, [Go, Go]), S1());
  }

  function S2(): (s: State) {
    State([P(RUNNING, None, NoChan, Fresh), FREED, FREED, FREED],
          [None, None, None, None], map[], [User(0), Scan(3)], [Some(0), None, None, None], [0, 0, 0, 0])
  }

  lemma Leg2()
    ensures Play(S1(), 1, [Go, Go, Go]) == Some(S2())
  {
    Match(Play(S1(), 1, [Go, Go, Go]), S2());
  }

  function S3(): (s: State) {
    State([P(RUNNING, None, NoChan, Fresh), P(RUNNABLE, Some(0), NoChan, Fresh), FREED, FREED],
          [None, None, None, None], map[], [User(0), Scan(3)], [Some(0), None, None, None], [0, 0, 0, 0])
  }

  lemma Leg3()
    ensures Play(S2(), 0, [Fork, Go, Go]) == Some(S3())
  {
    Match(Play(S2(), 0, [Fork, Go, Go]), S3());
  }

  function S4(): (s: State) {
    State([P(RUNNABLE, None, NoChan, InYield), P(RUNNABLE, Some(0), NoChan, Fresh), FREED, FREED],
          [None, None, None, None], map[], [Scan(1), Scan(3)], [None, None, None, None], [0, 0, 0, 0])
  }

  lemma Leg4()
    ensures Play(S3(), 0, [Yield, Go]) == Some(S4())
  {
    Match(Play(S3(), 0, [Yield, Go]), S4());
  }

  function S5(): (s: State) {
    State([P(RUNNABLE, None, NoChan, InYield), P(RUNNING, Some(0), NoChan, Fresh), FREED, FREED],
          [None, None, None, None], map[], [User(1), Scan(3)], [None, Some(0), None, None], [0, 0, 0, 0])
  }

  lemma Leg5()
    ensures Play(S4(), 0, [Go, Go]) == Some(S5())
  {
    Match(Play(S4(), 0, [Go, Go]), S5());
  }

  function S6(): (s: State) {
    State([P(RUNNABLE, None, NoChan, InYield), P(RUNNING, Some(0), NoChan, Fresh), P(RUNNABLE, Some(1), NoChan, Fresh),
           FREED], [None, None, None, None], map[], [User(1), Scan(3)], [None, Some(0), None, None], [0, 0, 0, 0])
  }

  lemma Leg6()
    ensures Play(S5(), 0, [Fork, Go, Go, Go]) == Some(S6())
  {
    Match(Play(S5(), 0, [Fork, Go, Go, Go]), S6());
  }

  function S7(): (s: State) {
    State([P(RUNNABLE, None, NoChan, InYield), P(RUNNABLE, Some(0), NoChan, InYield),
           P(RUNNABLE, Some(1), NoChan, Fresh), FREED], [None, None, None, None], map[], [Scan(2), Scan(3)],
          [None, None, None, None], [0, 0, 0, 0])
  }

  lemma Leg7()
    ensures Play(S6(), 0, [Yield, Go]) == Some(S7())
  {
    Match(Play(S6(), 0, [Yield, Go]), S7());
  }

  function S8(): (s: State) {
    State([P(RUNNABLE, None, NoChan, InYield), P(RUNNABLE, Some(0), NoChan, InYield),
           P(RUNNING, Some(1), NoChan, Fresh), FREED], [None, None, None, None], map[], [User(2), Scan(3)],
          [None, None, Some(0), None], [0, 0, 0, 0])
  }

  lemma Leg8()
    ensures Play(S7(), 0, [Go, Go]) == Some(S8())
  {
    Match(Play(S7(), 0, [Go, Go]), S8());
  }

  function S9(): (s: State) {
    State([P(RUNNABLE, None, NoChan, InYield), P(RUNNABLE, Some(0), NoChan, InYield),
           P(RUNNING, Some(1), NoChan, Fresh), P(RUNNABLE, Some(2), NoChan, Fresh)], [None, None, None, None], map[],
          [User(2), Scan(3)], [None, None, Some(0), None], [0, 0, 0, 0])
  }

  lemma Leg9()
    ensures Play(S8(), 0, [Fork, Go, Go, Go, Go]) == Some(S9())
  {
    Match(Play(S8(), 0, [Fork, Go, Go, Go, Go]), S9());
  }

  function S10(): (s: State) {
    State([P(RUNNABLE, None, NoChan, InYield), P(RUNNABLE, Some(0), NoChan, InYield),
           P(RUNNING, Some(1), NoChan, Fresh), P(RUNNING, Some(2), NoChan, Fresh)], [None, None, None, None], map[],
          [User(2), User(3)], [None, None, Some(0), Some(1)], [0, 0, 0, 0])
  }

  lemma Leg10()
    ensures Play(S9(), 1, [Go, Go]) == Some(S10())
  {
    Match(Play(S9(), 1, [Go, Go]), S10());
  }

  function S11(): (s: State) {
    State([P(RUNNABLE, None, NoChan, InYield), P(RUNNABLE, Some(0), NoChan, InYield),
           P(RUNNING, Some(1), NoChan, Fresh), P(RUNNING, Some(2), NoChan, Fresh)], [None, None, None, None], map[],
          [User(2), Exit2(3, 2)], [None, None, Some(0), Some(1)], [0, 0, 0, 0])
  }

  lemma Leg11()
    ensures Play(S10(), 1, [Exit, Go, Go]) == Some(S11())
  {
    Match(Play(S10(), 1, [Exit, Go, Go]), S11());
  }

  function S12(): (s: State) {
    State([P(RUNNABLE, None, NoChan, InYield), P(RUNNABLE, Some(0), NoChan, InYield),
           P(RUNNING, Some(1), NoChan, Fresh), P(RUNNING, Some(2), NoChan, Fresh)], [None, None, Some(1), Some(1)],
          map[], [User(2), Exit4(3, 2, 1)], [None, None, Some(0), Some(1)], [0, 0, 0, 0])
  }

  lemma Leg12()
    ensures Play(S11(), 1, [Go, Go, Go]) == Some(S12())
  {
    Match(Play(S11(), 1, [Go, Go, Go]), S12());
  }

  function S13(): (s: State) {
    State([P(RUNNABLE, None, NoChan, InYield), P(RUNNABLE, Some(0), NoChan, InYield),
           P(RUNNING, Some(1), NoChan, Fresh), P(RUNNING, Some(2), NoChan, Fresh)], [None, None, Some(1), Some(1)],
          map[], [User(2), Exit4(3, 2, 4)], [None, None, Some(0), Some(1)], [0, 0, 0, 0])
  }

  lemma Leg13()
    ensures Play(S12(), 1, [Go, Go, Go]) == Some(S13())
  {
    Match(Play(S12(), 1, [Go, Go, Go]), S13());
  }

  function S14(): (s: State) {
    State([P(RUNNABLE, None, NoChan, InYield), P(RUNNABLE, Some(0), NoChan, InYield),
           P(RUNNING, Some(1), NoChan, Fresh), P(ZOMBIE, Some(2), NoChan, Dead)], [None, None, None, None], map[],
          [User(2), Scan(4)], [None, None, Some(0), None], [0, 0, 0, 0])
  }

  lemma Leg14()
    ensures Play(S13(), 1, [Go, Go]) == Some(S14())
  {
    Match(Play(S13(), 1, [Go, Go]), S14());
  }

  function S15(): (s: State) {
    State([P(RUNNABLE, None, NoChan, InYield), P(RUNNABLE, Some(0), NoChan, InYield),
           P(RUNNING, Some(1), NoChan, Fresh), P(ZOMBIE, Some(2), NoChan, Dead)], [None, None, None, None], map[],
          [Exit2(2, 1), Scan(4)], [None, None, Some(0), None], [0, 0, 0, 0])
  }

  lemma Leg15()
    ensures Play(S14(), 0, [Exit, Go, Go]) == Some(S15())
  {
    Match(Play(S14(), 0, [Exit, Go, Go]), S15());
  }

  function S16(): (s: State) {
    State([P(RUNNING, None, NoChan, InYield), P(RUNNABLE, Some(0), NoChan, InYield), P(RUNNING, Some(1), NoChan, Fresh),
           P(ZOMBIE, Some(2), NoChan, Dead)], [None, None, None, None], map[], [Exit2(2, 1), User(0)],
          [Some(1), None, Some(0), None], [0, 0, 0, 0])
  }

  lemma Leg16()
    ensures Play(S15(), 1, [Go, Go, Go]) == Some(S16())
  {
    Match(Play(S15(), 1, [Go, Go, Go]), S16());
  }

  function S17(): (s: State) {
    State([P(RUNNING, None, NoChan, InYield), P(RUNNABLE, Some(0), NoChan, InYield), P(RUNNING, Some(1), NoChan, Fresh),
           P(ZOMBIE, Some(2), NoChan, Dead)], [Some(1), None, None, None], map[], [Exit2(2, 1), WaitChild(0, 1, false)],
          [Some(1), None, Some(0), None], [0, 0, 0, 0])
  }

  lemma Leg17()
    ensures Play(S16(), 1, [Wait(false), Go, Go]) == Some(S17())
  {
    Match(Play(S16(), 1, [Wait(false), Go, Go]), S17());
  }

  function S18(): (s: State) {
    State([P(RUNNING, None, NoChan, InYield), P(RUNNABLE, Some(0), NoChan, InYield), P(RUNNING, Some(1), NoChan, Fresh),
           P(ZOMBIE, Some(2), NoChan, Dead)], [Some(1), None, None, None], map[],
          [Exit2(2, 1), WaitScan(0, 4, true, false)], [Some(1), None, Some(0), None], [0, 0, 0, 0])
  }

  lemma Leg18()
    ensures Play(S17(), 1, [Go, Go, Go]) == Some(S18())
  {
    Match(Play(S17(), 1, [Go, Go, Go]), S18());
  }

  function S19(): (s: State) {
    State([P(SLEEPING, None, OfProc(0), InWait(false)), P(RUNNABLE, Some(0), NoChan, InYield),
           P(RUNNING, Some(1), NoChan, Fresh), P(ZOMBIE, Some(2), NoChan, Dead)], [None, None, None, None], map[],
          [Exit2(2, 1), Scan(1)], [None, None, Some(0), None], [0, 0, 0, 0])
  }

  lemma Leg19()
    ensures Play(S18(), 1, [Go, Go]) == Some(S19())
  {
    Match(Play(S18(), 1, [Go, Go]), S19());
  }

  function S20(): (s: State) {
    State([P(SLEEPING, None, OfProc(0), InWait(false)), P(RUNNABLE, Some(0), NoChan, InYield),
           P(RUNNING, Some(1), NoChan, Fresh), P(ZOMBIE, Some(2), NoChan, Dead)], [None, Some(0), Some(0), None], map[],
          [Exit4(2, 1, 0), Scan(1)], [None, None, Some(0), None], [0, 0, 0, 0])
  }

  lemma Leg20()
    ensures Play(S19(), 0, [Go, Go]) == Some(S20())
  {
    Match(Play(S19(), 0, [Go, Go]), S20());
  }

  function S21(): (s: State) {
    State([P(SLEEPING, None, OfProc(0), InWait(false)), P(RUNNABLE, Some(0), NoChan, InYield),
           P(RUNNING, Some(1), NoChan, Fresh), P(ZOMBIE, Some(2), NoChan, Dead)], [None, Some(0), Some(0), None], map[],
          [Exit5(2, 1, 3), Scan(1)], [None, None, Some(0), None], [0, 0, 0, 0])
  }

  lemma Leg21()
    ensures Play(S20(), 0, [Go, Go, Go, Go]) == Some(S21())
  {
    Match(Play(S20(), 0, [Go, Go, Go, Go]), S21());
  }

  lemma HalfReachable()
    ensures Reachable(S10())
  {
    assert S0() == Boot(4, 2) by {
      assert S0().procs == Boot(4, 2).procs && S0().locks == Boot(4, 2).locks && S0().cpus == Boot(4, 2).cpus;
      assert S0().on == Boot(4, 2).on && S0().woken == Boot(4, 2).woken;
    }
    BootReachable(S0());
    hide *;
    Leg1();
    PlayReaches(S0(), 0, [Go, Go], S1());
    Leg2();
    PlayReaches(S1(), 1, [Go, Go, Go], S2());
    Leg3();
    PlayReaches(S2(), 0, [Fork, Go, Go], S3());
    Leg4();
    PlayReaches(S3(), 0, [Yield, Go], S4());
    Leg5();
    PlayReaches(S4(), 0, [Go, Go], S5());
    Leg6();
    PlayReaches(S5(), 0, [Fork, Go, Go, Go], S6());
    Leg7();
    PlayReaches(S6(), 0, [Yield, Go], S7());
    Leg8();
    PlayReaches(S7(), 0, [Go, Go], S8());
    Leg9();
    PlayReaches(S8(), 0, [Fork, Go, Go, Go, Go], S9());
    Leg10();
    PlayReaches(S9(), 1, [Go, Go], S10());
  }

  lemma LastReachable()
    ensures Reachable(S21())
  {
    hide *;
    HalfReachable();
    Leg11();
    PlayReaches(S10(), 1, [Exit, Go, Go], S11());
    Leg12();
    PlayReaches(S11(), 1, [Go, Go, Go], S12());
    Leg13();
    PlayReaches(S12(), 1, [Go, Go, Go], S13());
    Leg14();
    PlayReaches(S13(), 1, [Go, Go], S14());
    Leg15();
    PlayReaches(S14(), 0, [Exit, Go, Go], S15());
    Leg16();
    PlayReaches(S15(), 1, [Go, Go, Go], S16());
    Leg17();
    PlayReaches(S16(), 1, [Wait(false), Go, Go], S17());
    Leg18();
    PlayReaches(S17(), 1, [Go, Go, Go], S18());
    Leg19();
    PlayReaches(S18(), 1, [Go, Go], S19());
    Leg20();
    PlayReaches(S19(), 0, [Go, Go], S20());
    Leg21();
    PlayReaches(S20(), 0, [Go, Go, Go, Go], S21());
  }

  /** Reachable is a step that gives a zombie to init in its sleep; the exiting process still has the parent
      it has read and locked. */
  lemma InitGivenZombie()
    ensures exists s ::
              && Reachable(s) && InitOk(s) && |s.procs| == 4 && Ready(s, 0, Go) && Strands(s, 0)
              && s.cpus[0].Exit5? && s.procs[s.cpus[0].i].parent == Some(s.cpus[0].op)
              && Next(s, 0, Go).locks[INIT] == None && AsleepInWait(Next(s, 0, Go), INIT)
              && Next(s, 0, Go).procs[3].state == ZOMBIE && Next(s, 0, Go).procs[3].parent == Some(INIT)
  {
    LastReachable();
    hide Reachable;
    var s := S21();
    assert InitOk(s) && Ready(s, 0, Go) && Strands(s, 0);
    var t := Next(s, 0, Go);
    assert t.procs[3].state == ZOMBIE && t.procs[3].parent == Some(INIT) && t.locks[INIT] == None
           && AsleepInWait(t, INIT);
  }
}
