/** Runs of the process table written out: a CPU and its steps at a time. */
module ProcessPlays {
  import opened Prelude
  import opened Processes
  import opened ProcessRuns

  /** The state after CPU `c` takes the steps one after the other. */
  function Play(s: State, c: nat, choices: seq<Choice>): (t: Option<State>)
    decreases |choices|
  {
    if choices == [] then Some(s)
    else if Ready(s, c, choices[0]) then Play(Next(s, c, choices[0]), c, choices[1..])
    else None
  }

  ghost predicate Reachable(s: State) {
    exists tr: seq<State>, steps: seq<Step> :: BootRun(tr, steps) && tr[|tr| - 1] == s
  }

  lemma BootReachable(s: State)
    requires |s.procs| > 0 && s == Boot(|s.procs|, |s.cpus|)
    ensures Reachable(s)
  {
    assert BootRun([s], []);
  }

  lemma OneStep(s: State, c: nat, choice: Choice)
    requires Reachable(s) && Ready(s, c, choice)
    ensures Reachable(Next(s, c, choice))
  {
    hide Next, Ready;
    var tr: seq<State>, steps: seq<Step> :| BootRun(tr, steps) && tr[|tr| - 1] == s;
    var tr', steps' := tr + [Next(s, c, choice)], steps + [Step(c, choice)];
    forall i | 0 <= i < |steps'|
      ensures Ready(tr'[i], steps'[i].cpu, steps'[i].choice)
              && tr'[i + 1] == Next(tr'[i], steps'[i].cpu, steps'[i].choice)
    {
      if i < |steps| {
        assert tr'[i] == tr[i] && tr'[i + 1] == tr[i + 1];
      }
    }
    assert BootRun(tr', steps') && tr'[|tr'| - 1] == Next(s, c, choice);
  }

  lemma {:induction false} PlayReaches(s: State, c: nat, choices: seq<Choice>, t: State)
    requires Reachable(s) && Play(s, c, choices) == Some(t)
    ensures Reachable(t)
    decreases |choices|
  {
    hide Next, Ready, Reachable;
    if choices != [] {
      OneStep(s, c, choices[0]);
      PlayReaches(Next(s, c, choices[0]), c, choices[1..], t);
    }
  }

  function P(state: ProcState, parent: Option<nat>, chan: Chan, ctx: Ctx): (p: Proc) {
    Proc(state, parent, chan, false, ctx)
  }

  lemma Match(t: Option<State>, s: State)
    requires t.Some? && t.value.procs == s.procs && t.value.locks == s.locks && t.value.chans == s.chans
    requires t.value.cpus == s.cpus && t.value.on == s.on && t.value.woken == s.woken
    ensures t == Some(s)
  {
  }
}
