/** A run in which init sleeps in wait although it has a zombie child: process 2 has read its parent
    when that parent exits and gives it to init, so it wakes an entry that is unused by then. */
module InitRace {
  import opened Prelude
  import opened Processes
  import opened ProcessRuns
  import opened ProcessPlays

  /** Three entries, two CPUs. */
  function S0(): (s: State) {
    State([P(RUNNABLE, None, NoChan, Fresh), FREED, FREED],
          [None, None, None], map[], [Scan(0), Scan(0)], [None, None, None], [0, 0, 0])
  }

  function S1(): (s: State) {
    State([P(RUNNING, None, NoChan, Fresh), FREED, FREED],
          [None, None, None], map[], [User(0), Scan(0)], [Some(0), None, None], [0, 0, 0])
  }

  lemma Leg1()
    ensures Play(S0(), 0, [Go, Go]) == Some(S1())
  {
    Match(Play(S0(), 0, [Go, Go]), S1());
  }

  function S2(): (s: State) {
    State([P(RUNNING, None, NoChan, Fresh), FREED, FREED],
          [None, None, None], map[], [User(0), Scan(2)], [Some(0), None, None], [0, 0, 0])
  }

  lemma Leg2()
    ensures Play(S1(), 1, [Go, Go]) == Some(S2())
  {
    Match(Play(S1(), 1, [Go, Go]), S2());
  }

  function S3(): (s: State) {
    State([P(RUNNING, None, NoChan, Fresh), P(RUNNABLE, Some(0), NoChan, Fresh), FREED],
          [None, None, None], map[], [User(0), Scan(2)], [Some(0), None, None], [0, 0, 0])
  }

  lemma Leg3()
    ensures Play(S2(), 0, [Fork, Go, Go]) == Some(S3())
  {
    Match(Play(S2(), 0, [Fork, Go, Go]), S3());
  }

  function S4(): (s: State) {
    State([P(RUNNABLE, None, NoChan, InYield), P(RUNNABLE, Some(0), NoChan, Fresh), FREED],
          [None, None, None], map[], [Scan(1), Scan(2)], [None, None, None], [0, 0, 0])
  }

  lemma Leg4()
    ensures Play(S3(), 0, [Yield, Go]) == Some(S4())
  {
    Match(Play(S3(), 0, [Yield, Go]), S4());
  }

  function S5(): (s: State) {
    State([P(RUNNABLE, None, NoChan, InYield), P(RUNNING, Some(0), NoChan, Fresh), FREED],
          [None, None, None], map[], [ForkScan(1, 0), Scan(2)], [None, Some(0), None], [0, 0, 0])
  }

  lemma Leg5()
    ensures Play(S4(), 0, [Go, Go, Fork]) == Some(S5())
  {
    Match(Play(S4(), 0, [Go, Go, Fork]), S5());
  }

  function S6(): (s: State) {
    State([P(RUNNABLE, None, NoChan, InYield), P(RUNNING, Some(0), NoChan, Fresh), P(RUNNABLE, Some(1), NoChan, Fresh)],
          [None, None, None], map[], [User(1), Scan(2)], [None, Some(0), None], [0, 0, 0])
  }

  lemma Leg6()
    ensures Play(S5(), 0, [Go, Go, Go]) == Some(S6())
  {
    Match(Play(S5(), 0, [Go, Go, Go]), S6());
  }

  function S7(): (s: State) {
    State([P(RUNNABLE, None, NoChan, InYield), P(RUNNING, Some(0), NoChan, Fresh), P(RUNNING, Some(1), NoChan, Fresh)],
          [None, None, None], map[], [User(1), User(2)], [None, Some(0), Some(1)], [0, 0, 0])
  }

  lemma Leg7()
    ensures Play(S6(), 1, [Go, Go]) == Some(S7())
  {
    Match(Play(S6(), 1, [Go, Go]), S7());
  }

  function S8(): (s: State) {
    State([P(RUNNABLE, None, NoChan, InYield), P(RUNNING, Some(0), NoChan, Fresh), P(RUNNING, Some(1), NoChan, Fresh)],
          [None, None, None], map[], [User(1), Exit2(2, 1)], [None, Some(0), Some(1)], [0, 0, 0])
  }

  lemma Leg8()
    ensures Play(S7(), 1, [Exit, Go, Go]) == Some(S8())
  {
    Match(Play(S7(), 1, [Exit, Go, Go]), S8());
  }

  function S9(): (s: State) {
    State([P(RUNNABLE, None, NoChan, InYield), P(RUNNING, Some(0), NoChan, Fresh), P(RUNNING, Some(1), NoChan, Fresh)],
          [None, None, None], map[], [Exit2(1, 0), Exit2(2, 1)], [None, Some(0), Some(1)], [0, 0, 0])
  }

  lemma Leg9()
    ensures Play(S8(), 0, [Exit, Go, Go]) == Some(S9())
  {
    Match(Play(S8(), 0, [Exit, Go, Go]), S9());
  }

  function S10(): (s: State) {
    State([P(RUNNABLE, None, NoChan, InYield), P(RUNNING, Some(0), NoChan, Fresh), P(RUNNING, Some(1), NoChan, Fresh)],
          [Some(0), Some(0), None], map[], [Exit4(1, 0, 0), Exit2(2, 1)], [None, Some(0), Some(1)], [0, 0, 0])
  }

  lemma Leg10()
    ensures Play(S9(), 0, [Go, Go]) == Some(S10())
  {
    Match(Play(S9(), 0, [Go, Go]), S10());
  }

  function S11(): (s: State) {
    State([P(RUNNABLE, None, NoChan, InYield), P(ZOMBIE, Some(0), NoChan, Dead), P(RUNNING, Some(0), NoChan, Fresh)],
          [None, Some(0), None], map[], [Done(1), Exit2(2, 1)], [None, Some(0), Some(1)], [0, 0, 0])
  }

  lemma Leg11()
    ensures Play(S10(), 0, [Go, Go, Go, Go, Go]) == Some(S11())
  {
    Match(Play(S10(), 0, [Go, Go, Go, Go, Go]), S11());
  }

  function S12(): (s: State) {
    State([P(RUNNING, None, NoChan, InYield), P(ZOMBIE, Some(0), NoChan, Dead), P(RUNNING, Some(0), NoChan, Fresh)],
          [Some(0), None, None], map[], [Back(0), Exit2(2, 1)], [Some(0), None, Some(1)], [0, 0, 0])
  }

  lemma Leg12()
    ensures Play(S11(), 0, [Go, Go, Go, Go]) == Some(S12())
  {
    Match(Play(S11(), 0, [Go, Go, Go, Go]), S12());
  }

  function S13(): (s: State) {
    State([P(RUNNING, None, NoChan, InYield), P(ZOMBIE, Some(0), NoChan, Dead), P(RUNNING, Some(0), NoChan, Fresh)],
          [Some(0), None, None], map[], [WaitScan(0, 0, false, false), Exit2(2, 1)], [Some(0), None, Some(1)],
          [0, 0, 0])
  }

  lemma Leg13()
    ensures Play(S12(), 0, [Go, Wait(false)]) == Some(S13())
  {
    Match(Play(S12(), 0, [Go, Wait(false)]), S13());
  }

  function S14(): (s: State) {
    State([P(RUNNING, None, NoChan, InYield), FREED, P(RUNNING, Some(0), NoChan, Fresh)],
          [None, None, None], map[], [User(0), Exit2(2, 1)], [Some(0), None, Some(1)], [0, 0, 0])
  }

  lemma Leg14()
    ensures Play(S13(), 0, [Go, Go, Go]) == Some(S14())
  {
    Match(Play(S13(), 0, [Go, Go, Go]), S14());
  }

  function S15(): (s: State) {
    State([P(RUNNING, None, NoChan, InYield), FREED, P(RUNNING, Some(0), NoChan, Fresh)], [Some(0), None, None], map[],
          [WaitScan(0, 1, false, false), Exit2(2, 1)], [Some(0), None, Some(1)], [0, 0, 0])
  }

  lemma Leg15()
    ensures Play(S14(), 0, [Wait(false), Go]) == Some(S15())
  {
    Match(Play(S14(), 0, [Wait(false), Go]), S15());
  }

  function S16(): (s: State) {
    State([P(RUNNING, None, NoChan, InYield), FREED, P(RUNNING, Some(0), NoChan, Fresh)],
          [Some(0), None, None], map[], [WaitScan(0, 3, true, false), Exit2(2, 1)], [Some(0), None, Some(1)], [0, 0, 0])
  }

  lemma Leg16()
    ensures Play(S15(), 0, [Go, Go, Go]) == Some(S16())
  {
    Match(Play(S15(), 0, [Go, Go, Go]), S16());
  }

  function S17(): (s: State) {
    State([P(SLEEPING, None, OfProc(0), InWait(false)), FREED, P(RUNNING, Some(0), NoChan, Fresh)],
          [None, None, None], map[], [Scan(1), Exit2(2, 1)], [None, None, Some(1)], [0, 0, 0])
  }

  lemma Leg17()
    ensures Play(S16(), 0, [Go, Go]) == Some(S17())
  {
    Match(Play(S16(), 0, [Go, Go]), S17());
  }

  function S18(): (s: State) {
    State([P(SLEEPING, None, OfProc(0), InWait(false)), FREED, P(RUNNING, Some(0), NoChan, Fresh)],
          [None, Some(1), Some(1)], map[], [Scan(1), Exit4(2, 1, 2)], [None, None, Some(1)], [0, 0, 0])
  }

  lemma Leg18()
    ensures Play(S17(), 1, [Go, Go, Go, Go]) == Some(S18())
  {
    Match(Play(S17(), 1, [Go, Go, Go, Go]), S18());
  }

  function S19(): (s: State) {
    State([P(SLEEPING, None, OfProc(0), InWait(false)), FREED, P(ZOMBIE, Some(0), NoChan, Dead)],
          [None, None, None], map[], [Scan(1), Scan(3)], [None, None, None], [0, 0, 0])
  }

  lemma Leg19()
    ensures Play(S18(), 1, [Go, Go, Go]) == Some(S19())
  {
    Match(Play(S18(), 1, [Go, Go, Go]), S19());
  }

  lemma LastReachable()
    ensures Reachable(S19())
  {
    assert S0() == Boot(3, 2) by {
      assert S0().procs == Boot(3, 2).procs && S0().locks == Boot(3, 2).locks && S0().cpus == Boot(3, 2).cpus;
      assert S0().on == Boot(3, 2).on && S0().woken == Boot(3, 2).woken;
    }
    BootReachable(S0());
    hide *;
    Leg1();
    PlayReaches(S0(), 0, [Go, Go], S1());
    Leg2();
    PlayReaches(S1(), 1, [Go, Go], S2());
    Leg3();
    PlayReaches(S2(), 0, [Fork, Go, Go], S3());
    Leg4();
    PlayReaches(S3(), 0, [Yield, Go], S4());
    Leg5();
    PlayReaches(S4(), 0, [Go, Go, Fork], S5());
    Leg6();
    PlayReaches(S5(), 0, [Go, Go, Go], S6());
    Leg7();
    PlayReaches(S6(), 1, [Go, Go], S7());
    Leg8();
    PlayReaches(S7(), 1, [Exit, Go, Go], S8());
    Leg9();
    PlayReaches(S8(), 0, [Exit, Go, Go], S9());
    Leg10();
    PlayReaches(S9(), 0, [Go, Go], S10());
    Leg11();
    PlayReaches(S10(), 0, [Go, Go, Go, Go, Go], S11());
    Leg12();
    PlayReaches(S11(), 0, [Go, Go, Go, Go], S12());
    Leg13();
    PlayReaches(S12(), 0, [Go, Wait(false)], S13());
    Leg14();
    PlayReaches(S13(), 0, [Go, Go, Go], S14());
    Leg15();
    PlayReaches(S14(), 0, [Wait(false), Go], S15());
    Leg16();
    PlayReaches(S15(), 0, [Go, Go, Go], S16());
    Leg17();
    PlayReaches(S16(), 0, [Go, Go], S17());
    Leg18();
    PlayReaches(S17(), 1, [Go, Go, Go, Go], S18());
    Leg19();
    PlayReaches(S18(), 1, [Go, Go, Go], S19());
  }

  /** A reachable state in which init is asleep in wait, its lock is free, and its child is a zombie. */
  lemma InitSleepsWithZombie()
    ensures exists s :: Reachable(s) && |s.procs| == |s.locks| == 3 && s.locks[INIT] == None
              && s.procs[INIT].state == SLEEPING && s.procs[INIT].chan == OfProc(INIT)
              && s.procs[2].state == ZOMBIE && s.procs[2].parent == Some(INIT)
  {
    LastReachable();
    hide Reachable;
  }
}
