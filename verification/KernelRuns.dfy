/** Results over whole runs of the kernel machine, from `userinit` on, under any interleaving of any number
    of CPUs and any changes of policy. */
module KernelRuns {
  import opened ProcTypes
  import opened ProcTable
  import opened Kernel
  import opened KernelSafety

  /** `states` starts after `userinit`, and `steps[i]` leads from state i to state i + 1. */
  ghost predicate IsRun(states: seq<State>, steps: seq<Step>) {
    && |states| == |steps| + 1
    && Initial(states[0])
    && forall i :: 0 <= i < |steps| ==> StepAt(states, steps, i)
  }

  ghost predicate StepAt(states: seq<State>, steps: seq<Step>, i: nat)
    requires i < |steps| && |states| == |steps| + 1
  {
    states[i].WellFormed() && Enabled(states[i], steps[i]) && states[i + 1] == Next(states[i], steps[i])
  }

  lemma {:induction false} RunInv(states: seq<State>, steps: seq<Step>, n: nat)
    requires IsRun(states, steps) && n < |states|
    ensures Inv(states[n]) && states[n].WellFormed()
  {
    if n == 0 {
      InitialInv(states[0]);
    } else {
      RunInv(states, steps, n - 1);
      assert StepAt(states, steps, n - 1);
      InvStep(states[n - 1], steps[n - 1]);
    }
  }

  ghost predicate OnSomeCpu(s: State, p: nat) {
    exists c :: 0 <= c < |s.cpus| && s.cpus[c].proc == Some(p)
  }

  /** Whenever `ptable.lock` is free, a process is RUNNING exactly when it is some CPU's c->proc,
      and no two CPUs have the same c->proc. */
  lemma DispatchSafety(states: seq<State>, steps: seq<Step>, n: nat)
    requires IsRun(states, steps) && n < |states| && states[n].core.lock == None
    ensures var s := states[n];
            && (forall p :: 0 <= p < |s.core.procs| ==> (s.core.procs[p].state == Running <==> OnSomeCpu(s, p)))
            && (forall c, d :: 0 <= c < d < |s.cpus| && s.cpus[c].proc.Some? ==> s.cpus[c].proc != s.cpus[d].proc)
  {
    RunInv(states, steps, n);
    var s := states[n];
    forall c | 0 <= c < |s.cpus|
      ensures s.cpus[c].proc == s.cpus[c].Executes()
      ensures s.cpus[c].proc.Some? ==> s.core.procs[s.cpus[c].proc.value].state == Running
    {
      assert CpuInv(s.core, c, s.cpus[c]);
    }
    forall p | 0 <= p < |s.core.procs|
      ensures s.core.procs[p].state == Running <==> OnSomeCpu(s, p)
    {
      if s.core.procs[p].state == Running {
        assert SomeCpuExecutes(s, p);
        var c :| 0 <= c < |s.cpus| && s.cpus[c].Executes() == Some(p);
        assert s.cpus[c].proc == Some(p);
      }
    }
  }

  /** When `wait` or `waitx` frees the kernel stack and page directory of a zombie, no CPU is on that stack
      or has that process as c->proc. */
  lemma ReapSafety(states: seq<State>, steps: seq<Step>, n: nat, c: nat, z: nat)
    requires IsRun(states, steps) && n < |steps| && steps[n] == On(c, Perform)
    requires c < |states[n].cpus| && states[n].cpus[c].ctl.Locked? && states[n].cpus[c].ctl.op == Wait
    requires z < |states[n].core.procs| && z < |states[n + 1].core.procs|
    requires states[n].core.procs[z].stack && !states[n + 1].core.procs[z].stack
    ensures states[n].core.procs[z].state == Zombie && states[n].core.procs[z].parent == Some(states[n].cpus[c].ctl.p)
    ensures forall d :: 0 <= d < |states[n].cpus| ==>
              states[n].cpus[d].Uses() != Some(z) && states[n].cpus[d].proc != Some(z)
  {
    RunInv(states, steps, n);
    assert StepAt(states, steps, n);
    var s := states[n];
    assert CpuInv(s.core, c, s.cpus[c]);
    forall d | 0 <= d < |s.cpus|
      ensures s.cpus[d].Uses() != Some(z) && s.cpus[d].proc != Some(z)
    {
      assert CpuInv(s.core, d, s.cpus[d]);
    }
  }

  /** No exit is lost: a process asleep in `wait` has a child to wait for and no zombie child left unreported,
      and every process but init has a living parent that can wait for it. */
  lemma NoLostExit(states: seq<State>, steps: seq<Step>, n: nat, p: nat)
    requires IsRun(states, steps) && n < |states| && p < |states[n].core.procs|
    ensures var k := states[n].core;
            && (k.procs[p].state == Sleeping && k.procs[p].chan == Some(OnProc(p)) ==>
                  HasChild(k.procs, p) && !HasZombieChild(k.procs, p))
            && (k.procs[p].state in {Runnable, Running, Sleeping, Zombie} && p != k.init ==>
                  exists q: nat :: q < |k.procs| && k.procs[p].parent == Some(q)
                                   && k.procs[q].state in {Runnable, Running, Sleeping})
  {
    RunInv(states, steps, n);
    var k := states[n].core;
    assert SlotInv(k, p);
  }
}
