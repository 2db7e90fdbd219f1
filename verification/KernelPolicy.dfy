/** What round robin guarantees over runs: a bounded wait. */
module KernelPolicy {
  import opened ProcTypes
  import opened ProcTable
  import opened Kernel
  import opened KernelSafety
  import opened KernelRuns

  // ---------- Round robin ----------

  /** How many slots a scan at `pos` passes before it reaches slot `i`. */
  function Distance(pos: nat, i: nat, n: nat): int {
    if pos <= i then i - pos else n - pos + i
  }

  /** Dispatches CPU `cpu` can still make before it reaches slot `i`. */
  function Ahead(cpu: Cpu, i: nat, n: nat): int {
    match cpu.ctl
    case Scan(pos) => Distance(pos, i, n)
    case Dispatching(_) => Resuming(cpu.back, i, n)
    case Resumed(_) => Resuming(cpu.back, i, n)
    case Run(_) => Resuming(cpu.back, i, n)
    case Locked(_, _) => Resuming(cpu.back, i, n)
    case Switching(_) => Resuming(cpu.back, i, n)
    case Choose(_) => i + 1
    case _ => i
  }

  function Resuming(back: Control, i: nat, n: nat): int {
    if back.Scan? then Distance(back.pos, i, n) else i
  }

  /** CPU `c` dispatches a process in this step. */
  predicate Dispatches(step: Step, c: nat) {
    step.On? && step.c == c && (step.act.ScanPick? || step.act.ChoosePick?)
  }

  /** The dispatches that CPU `c` makes from step `i` up to step `n`. */
  function DispatchCount(steps: seq<Step>, c: nat, i: nat, n: nat): nat
    requires i <= n <= |steps|
  {
    if i == n then 0 else DispatchCount(steps, c, i, n - 1) + if Dispatches(steps[n - 1], c) then 1 else 0
  }

  /** CPU `c` dispatches slot `i` in this step. */
  predicate Picks(s: State, step: Step, c: nat, i: nat)
    requires c < |s.cpus|
  {
    (step == On(c, ScanPick) && s.cpus[c].ctl == Scan(i)) || step == On(c, ChoosePick(i))
  }

  /** No scan is past its table, and a slot that stays runnable is not passed over. */
  lemma AheadStep(k: Core, c: nat, cpu: Cpu, act: Act, i: nat)
    requires k.WellFormed() && CpuInv(k, c, cpu) && Can(k, cpu, act) && i < |k.procs|
    requires k.policy == 0 && k.procs[i].state == Runnable
    requires !(act.ScanPick? && cpu.ctl.pos == i)
    ensures var cpu' := NextCpu(k, cpu, act);
            && 0 <= Ahead(cpu', i, |k.procs|) <= Ahead(cpu, i, |k.procs|)
            && (act.ScanPick? || act.ChoosePick? ==> Ahead(cpu', i, |k.procs|) < Ahead(cpu, i, |k.procs|))
  {
  }

  lemma AheadOne(s: State, step: Step, c: nat, i: nat)
    requires Inv(s) && s.WellFormed() && Enabled(s, step) && c < |s.cpus| && i < |s.core.procs|
    requires s.core.policy == 0 && s.core.procs[i].state == Runnable && !Picks(s, step, c, i)
    ensures var s' := Next(s, step);
            && |s'.cpus| == |s.cpus| && |s'.core.procs| == |s.core.procs|
            && Ahead(s'.cpus[c], i, |s.core.procs|) + (if Dispatches(step, c) then 1 else 0)
               <= Ahead(s.cpus[c], i, |s.core.procs|)
  {
    assert CpuInv(s.core, c, s.cpus[c]);
    if step.On? {
      CoreStep(s.core, step.c, s.cpus[step.c], step.act);
      if step.c == c {
        AheadStep(s.core, c, s.cpus[c], step.act, i);
      }
    }
  }

  /** Slot `i` waits: runnable throughout, under round robin, and not picked by CPU `c`. */
  ghost predicate Waits(states: seq<State>, steps: seq<Step>, c: nat, i: nat, lo: nat, hi: nat)
    requires |states| == |steps| + 1
  {
    forall m :: lo <= m < hi < |states| ==>
      && i < |states[m].core.procs| && c < |states[m].cpus|
      && states[m].core.procs[i].state == Runnable && states[m].core.policy == 0
      && !Picks(states[m], steps[m], c, i)
  }

  lemma AheadAt(states: seq<State>, steps: seq<Step>, c: nat, i: nat, m: nat)
    requires IsRun(states, steps) && m < |steps| && c < |states[m].cpus| && i < |states[m].core.procs|
    requires states[m].core.policy == 0 && states[m].core.procs[i].state == Runnable
    requires !Picks(states[m], steps[m], c, i)
    ensures var s, s' := states[m], states[m + 1];
            && |s'.cpus| == |s.cpus| && |s'.core.procs| == |s.core.procs|
            && Ahead(s'.cpus[c], i, |s.core.procs|) + (if Dispatches(steps[m], c) then 1 else 0)
               <= Ahead(s.cpus[c], i, |s.core.procs|)
  {
    RunInv(states, steps, m);
    assert StepAt(states, steps, m);
    AheadOne(states[m], steps[m], c, i);
  }

  lemma {:induction false} AheadRun(states: seq<State>, steps: seq<Step>, c: nat, i: nat, lo: nat, hi: nat)
    requires IsRun(states, steps) && lo <= hi < |states|
    requires Waits(states, steps, c, i, lo, hi)
    requires c < |states[lo].cpus| && i < |states[lo].core.procs|
    ensures c < |states[hi].cpus| && |states[hi].core.procs| == |states[lo].core.procs|
    ensures var n := |states[lo].core.procs|;
            Ahead(states[hi].cpus[c], i, n) + DispatchCount(steps, c, lo, hi) <= Ahead(states[lo].cpus[c], i, n)
    decreases hi
  {
    if lo < hi {
      AheadRun(states, steps, c, i, lo, hi - 1);
      AheadAt(states, steps, c, i, hi - 1);
    }
  }

  lemma AheadBound(k: Core, c: nat, cpu: Cpu, i: nat)
    requires k.WellFormed() && CpuInv(k, c, cpu) && i < |k.procs|
    ensures 0 <= Ahead(cpu, i, |k.procs|) < |k.procs| + (if cpu.ctl.Choose? then 1 else 0)
  {
  }

  /** Under round robin, a slot that stays RUNNABLE sees fewer dispatches of other slots by any one CPU than there
      are slots before that CPU dispatches it, wherever in its scan the CPU was. A CPU caught in the middle of a
      choice under the policy before makes that one dispatch on top. */
  lemma RoundRobinBound(states: seq<State>, steps: seq<Step>, c: nat, i: nat, lo: nat, hi: nat)
    requires IsRun(states, steps) && lo <= hi < |states|
    requires c < |states[lo].cpus| && i < |states[lo].core.procs|
    requires Waits(states, steps, c, i, lo, hi)
    ensures DispatchCount(steps, c, lo, hi)
            <= |states[lo].core.procs| - 1 + (if states[lo].cpus[c].ctl.Choose? then 1 else 0)
  {
    RunInv(states, steps, lo);
    RunInv(states, steps, hi);
    AheadRun(states, steps, c, i, lo, hi);
    var s := states[lo];
    assert CpuInv(s.core, c, s.cpus[c]);
    assert CpuInv(states[hi].core, c, states[hi].cpus[c]);
    AheadBound(s.core, c, s.cpus[c], i);
    AheadBound(states[hi].core, c, states[hi].cpus[c], i);
  }
}
