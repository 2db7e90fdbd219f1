/** Tick accounting over runs: what `waitx` reports, with `ticks++` and the accounting loop as separate steps. */
module KernelTime {
  import opened ProcTypes
  import opened ProcTable
  import opened Kernel
  import opened KernelSafety
  import opened KernelRuns

  /** Ticks accounted to a process so far. */
  function Spent(p: Proc): nat {
    p.rtime + p.stime + p.retime
  }

  /** `lead` bounds how far accounting may run ahead of a process's age: 1 in general, 0 when every tick is
      accounted before anything else happens. */
  ghost predicate SlotTime(k: Core, p: nat, lead: nat)
    requires k.WellFormed() && p < |k.procs|
  {
    var proc, place := k.procs[p], k.tasks[p].place;
    var done := if k.clock == Still then k.ticks else k.ticks - 1;
    && (Alive(proc) ==> proc.ctime <= k.ticks && Spent(proc) + proc.ctime <= done + lead)
    && (proc.state == Zombie ==> proc.ctime <= proc.etime && Spent(proc) + proc.ctime <= proc.etime + lead)
    && (place.Forking? && place.stage >= 1 ==>
          && Spent(k.procs[place.child]) == 0
          && k.procs[place.child].ctime <= k.ticks && k.procs[place.child].ctime <= done + lead)
  }

  ghost predicate TimeInv(k: Core, lead: nat) {
    && k.WellFormed()
    && (k.clock != Still ==> k.ticks > 0)
    && forall p :: 0 <= p < |k.procs| ==> SlotTime(k, p, lead)
  }

  predicate SameTimes(before: Proc, after: Proc) {
    && after.ctime == before.ctime && after.etime == before.etime && after.rtime == before.rtime
    && after.stime == before.stime && after.retime == before.retime
  }

  ghost predicate QuietSlot(before: Proc, after: Proc, place: Place, place': Place) {
    && SameTimes(before, after)
    && (Alive(after) ==> Alive(before))
    && (after.state == Zombie ==> before.state == Zombie)
    && (place'.Forking? && place'.stage >= 1 ==> place.Forking? && place.stage >= 1 && place.child == place'.child)
  }

  /** Steps that neither create, publish nor end a process leave the accounts alone. */
  ghost predicate Quiet(k: Core, k': Core) {
    && k'.ticks == k.ticks && k'.clock == k.clock && |k'.procs| == |k'.tasks| == |k.procs| == |k.tasks|
    && forall p :: 0 <= p < |k.procs| ==>
         QuietSlot(k.procs[p], k'.procs[p], k.tasks[p].place, k'.tasks[p].place)
  }

  lemma QuietTime(k: Core, k': Core, lead: nat)
    requires TimeInv(k, lead) && k'.WellFormed() && Quiet(k, k')
    ensures TimeInv(k', lead)
  {
    forall p | 0 <= p < |k.procs|
      ensures SlotTime(k', p, lead)
    {
      assert SlotTime(k, p, lead);
    }
  }

  lemma QuietPerform(k: Core, p: nat, op: Op)
    requires k.WellFormed() && p < |k.procs| && k.procs[p].state == Running
    requires !op.Exit? && !op.Publish?
    ensures Quiet(k, Performed(k, p, op))
  {
    CorePerformed(k, p, op);
    var k' := Performed(k, p, op);
    forall q | 0 <= q < |k.procs|
      ensures QuietSlot(k.procs[q], k'.procs[q], k.tasks[q].place, k'.tasks[q].place)
    {
      QuietPerformSlot(k, p, op, q);
    }
  }

  lemma QuietPerformSlot(k: Core, p: nat, op: Op, q: nat)
    requires k.WellFormed() && p < |k.procs| && k.procs[p].state == Running && q < |k.procs|
    requires !op.Exit? && !op.Publish?
    requires q < |Performed(k, p, op).procs| && q < |Performed(k, p, op).tasks|
    ensures var k' := Performed(k, p, op);
            QuietSlot(k.procs[q], k'.procs[q], k.tasks[q].place, k'.tasks[q].place)
  {
    if op.Wait? {
      QuietWaited(k, p, q);
    }
  }

  lemma QuietWaited(k: Core, p: nat, q: nat)
    requires k.WellFormed() && p < |k.procs| && k.procs[p].state == Running && q < |k.procs|
    ensures var k' := Waited(k, p);
            && |k'.procs| == |k.procs| && |k'.tasks| == |k.tasks|
            && QuietSlot(k.procs[q], k'.procs[q], k.tasks[q].place, k'.tasks[q].place)
  {
  }

  lemma QuietStep(k: Core, c: nat, cpu: Cpu, act: Act)
    requires k.WellFormed() && CpuInv(k, c, cpu) && Can(k, cpu, act)
    requires !act.InitEmbryo? && !(act.Perform? && (cpu.ctl.op.Exit? || cpu.ctl.op.Publish?))
    ensures Quiet(k, NextCore(k, c, cpu, act))
  {
    if act.Perform? {
      QuietPerform(k, cpu.ctl.p, cpu.ctl.op);
    } else {
      CoreStep(k, c, cpu, act);
      var k' := NextCore(k, c, cpu, act);
      forall q | 0 <= q < |k.procs|
        ensures QuietSlot(k.procs[q], k'.procs[q], k.tasks[q].place, k'.tasks[q].place)
      {
        QuietStepSlot(k, c, cpu, act, q);
      }
    }
  }

  lemma QuietStepSlot(k: Core, c: nat, cpu: Cpu, act: Act, q: nat)
    requires k.WellFormed() && k.Fits(cpu) && Can(k, cpu, act) && !act.InitEmbryo? && !act.Perform?
    requires q < |k.procs| && (cpu.ctl.Dispatching? ==> k.procs[cpu.ctl.p].state == Runnable)
    ensures var k' := NextCore(k, c, cpu, act);
            && |k'.procs| == |k.procs| && |k'.tasks| == |k.tasks|
            && QuietSlot(k.procs[q], k'.procs[q], k.tasks[q].place, k'.tasks[q].place)
  {
  }

  lemma InitEmbryoTime(k: Core, c: nat, cpu: Cpu, lead: nat)
    requires TimeInv(k, lead) && FamilyInv(k) && CpuInv(k, c, cpu) && Can(k, cpu, InitEmbryo)
    requires lead >= 1 || k.clock == Still
    ensures TimeInv(NextCore(k, c, cpu, InitEmbryo), lead)
  {
    CoreStep(k, c, cpu, InitEmbryo);
    var p := cpu.ctl.p;
    var e := k.tasks[p].place.child;
    var k' := NextCore(k, c, cpu, InitEmbryo);
    assert SlotInv(k, p) && SlotInv(k, e);
    forall q | 0 <= q < |k.procs|
      ensures SlotTime(k', q, lead)
    {
      assert SlotTime(k, q, lead) && SlotInv(k, q);
    }
  }

  lemma PublishTime(k: Core, p: nat, lead: nat)
    requires TimeInv(k, lead) && FamilyInv(k) && p < |k.procs| && k.procs[p].state == Running
    requires k.tasks[p].place.Forking? && k.tasks[p].place.stage == 2
    ensures TimeInv(Performed(k, p, Publish), lead)
  {
    CorePerformed(k, p, Publish);
    var e := k.tasks[p].place.child;
    var k' := Performed(k, p, Publish);
    assert SlotInv(k, p) && SlotInv(k, e) && SlotTime(k, p, lead);
    forall q | 0 <= q < |k.procs|
      ensures SlotTime(k', q, lead)
    {
      assert SlotTime(k, q, lead) && SlotInv(k, q);
    }
  }

  lemma ExitedTimes(procs: seq<Proc>, cur: nat, init: nat, ticks: nat, q: nat)
    requires cur < |procs| && q < |procs|
    ensures var after := Exited(procs, cur, init, ticks)[q];
            && after.ctime == procs[q].ctime && Spent(after) == Spent(procs[q])
            && (if q == cur then after.etime == ticks && after.state == Zombie
                else after.etime == procs[q].etime && (Alive(after) <==> Alive(procs[q]))
                     && (after.state == Zombie <==> procs[q].state == Zombie))
  {
  }

  lemma ExitTime(k: Core, p: nat, lead: nat)
    requires TimeInv(k, lead) && FamilyInv(k) && p < |k.procs| && k.procs[p].state == Running
    requires k.tasks[p].place == Ordinary && p != k.init
    ensures TimeInv(Performed(k, p, Exit), lead)
  {
    CorePerformed(k, p, Exit);
    var k' := Performed(k, p, Exit);
    forall q | 0 <= q < |k.procs|
      ensures SlotTime(k', q, lead)
    {
      assert SlotTime(k, q, lead) && SlotInv(k, q);
      ExitedTimes(k.procs, p, k.init, k.ticks, q);
      if k.tasks[q].place.Forking? {
        ExitedTimes(k.procs, p, k.init, k.ticks, k.tasks[q].place.child);
      }
    }
  }

  lemma ClockTime(s: State, step: Step, lead: nat)
    requires TimeInv(s.core, lead) && Inv(s) && s.WellFormed() && Enabled(s, step) && !step.On?
    ensures TimeInv(Next(s, step).core, lead)
  {
    var k, k' := s.core, Next(s, step).core;
    forall q | 0 <= q < |k.procs|
      ensures SlotTime(k', q, lead)
    {
      assert SlotTime(k, q, lead) && SlotInv(k, q);
    }
  }

  /** Every step keeps the accounts, in general with a lead of one tick. */
  lemma TimeStep(s: State, step: Step, lead: nat)
    requires TimeInv(s.core, lead) && Inv(s) && s.WellFormed() && Enabled(s, step)
    requires lead >= 1 || s.core.clock == Still || !step.On?
    ensures TimeInv(Next(s, step).core, lead)
  {
    if step.On? {
      var k, c, cpu, act := s.core, step.c, s.cpus[step.c], step.act;
      assert CpuInv(k, c, cpu);
      if act.InitEmbryo? {
        InitEmbryoTime(k, c, cpu, lead);
      } else if act.Perform? && cpu.ctl.op.Exit? {
        ExitTime(k, cpu.ctl.p, lead);
      } else if act.Perform? && cpu.ctl.op.Publish? {
        PublishTime(k, cpu.ctl.p, lead);
      } else {
        QuietStep(k, c, cpu, act);
        CoreStep(k, c, cpu, act);
        QuietTime(k, NextCore(k, c, cpu, act), lead);
      }
    } else {
      ClockTime(s, step, lead);
    }
  }

  /** No CPU takes a step of its own between a tick and its accounting. */
  ghost predicate AtomicTicks(states: seq<State>, steps: seq<Step>)
    requires |states| == |steps| + 1
  {
    forall i :: 0 <= i < |steps| && states[i].core.clock != Still ==> !steps[i].On?
  }

  lemma {:induction false} SameCpus(states: seq<State>, steps: seq<Step>, n: nat)
    requires IsRun(states, steps) && n < |states|
    ensures |states[n].cpus| == |states[0].cpus|
  {
    if n > 0 {
      SameCpus(states, steps, n - 1);
      assert StepAt(states, steps, n - 1);
    }
  }

  /** On one CPU ticks are atomic: the timer interrupt holds the CPU until it has accounted for the tick. */
  lemma OneCpuTicks(states: seq<State>, steps: seq<Step>)
    requires IsRun(states, steps) && |states[0].cpus| == 1
    ensures AtomicTicks(states, steps)
  {
    forall i | 0 <= i < |steps| && states[i].core.clock != Still
      ensures !steps[i].On?
    {
      SameCpus(states, steps, i);
      assert StepAt(states, steps, i);
    }
  }

  lemma InitialTime(s: State, lead: nat)
    requires Initial(s)
    ensures TimeInv(s.core, lead)
  {
  }

  lemma {:induction false} RunTime(states: seq<State>, steps: seq<Step>, n: nat, lead: nat)
    requires IsRun(states, steps) && n < |states|
    requires lead == 1 || (lead == 0 && AtomicTicks(states, steps))
    ensures TimeInv(states[n].core, lead)
  {
    if n == 0 {
      InitialTime(states[0], lead);
    } else {
      RunTime(states, steps, n - 1, lead);
      RunInv(states, steps, n - 1);
      assert StepAt(states, steps, n - 1);
      TimeStep(states[n - 1], steps[n - 1], lead);
    }
  }

  /** A live process has been accounted at most one tick more than its age, and none more when ticks are atomic, as
      they are on one CPU. */
  lemma AccountedAtMostAge(states: seq<State>, steps: seq<Step>, n: nat, p: nat)
    requires IsRun(states, steps) && n < |states| && p < |states[n].core.procs|
    requires states[n].core.procs[p].state in {Runnable, Running, Sleeping}
    ensures var proc := states[n].core.procs[p];
            && proc.ctime <= states[n].core.ticks
            && Spent(proc) <= states[n].core.ticks - proc.ctime + 1
            && (AtomicTicks(states, steps) || |states[0].cpus| == 1 ==>
                  Spent(proc) <= states[n].core.ticks - proc.ctime)
  {
    RunTime(states, steps, n, 1);
    assert SlotTime(states[n].core, p, 1);
    if |states[0].cpus| == 1 { OneCpuTicks(states, steps); }
    if AtomicTicks(states, steps) {
      RunTime(states, steps, n, 0);
      assert SlotTime(states[n].core, p, 0);
    }
  }

  /** The waiting time `waitx` computes for a zombie, before and after its clamp at zero. */
  function RawWait(z: Proc): int {
    z.etime - z.ctime - z.rtime
  }

  function ReportedWait(z: Proc): int {
    if RawWait(z) < 0 then 0 else RawWait(z)
  }

  /** What `waitx` reports adds up to the age at exit, or to one tick more; only then does the clamp act, and never on
      one CPU. */
  lemma WaitxAddsUp(states: seq<State>, steps: seq<Step>, n: nat, z: nat)
    requires IsRun(states, steps) && n < |states| && z < |states[n].core.procs|
    requires states[n].core.procs[z].state == Zombie
    ensures var p := states[n].core.procs[z];
            var age := p.etime - p.ctime;
            && age >= 0
            && (ReportedWait(p) + p.rtime == age || ReportedWait(p) + p.rtime == age + 1)
            && (RawWait(p) < 0 <==> ReportedWait(p) + p.rtime == age + 1)
            && (AtomicTicks(states, steps) || |states[0].cpus| == 1 ==> RawWait(p) >= 0)
  {
    RunTime(states, steps, n, 1);
    assert SlotTime(states[n].core, z, 1);
    if |states[0].cpus| == 1 { OneCpuTicks(states, steps); }
    if AtomicTicks(states, steps) {
      RunTime(states, steps, n, 0);
      assert SlotTime(states[n].core, z, 0);
    }
  }
}
