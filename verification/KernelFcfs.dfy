/** What FCFS guarantees over runs of one CPU: from the moment the scheduler is settled under it, processes that
    never slept or yielded exit in order of creation. */
module KernelFcfs {
  import opened ProcTypes
  import opened ProcTable
  import opened Kernel
  import opened KernelSafety
  import opened KernelRuns
  import KernelTime

  // ---------- Ages, under any policy and on any number of CPUs ----------

  ghost predicate Clean(k: Core, p: nat)
    requires p < |k.tasks| == |k.procs|
  {
    Alive(k.procs[p]) && k.tasks[p].clean
  }

  /** The embryo of a process inside `fork`, once its creation time is set. */
  ghost predicate Expects(k: Core, p: nat, e: nat)
    requires p < |k.tasks|
  {
    k.tasks[p].place.Forking? && k.tasks[p].place.stage >= 1 && k.tasks[p].place.child == e
  }

  ghost predicate AgeSlot(k: Core, p: nat)
    requires k.WellFormed() && p < |k.procs|
  {
    && (Clean(k, p) ==> k.procs[p].state != Sleeping)
    && (Alive(k.procs[p]) ==> k.procs[p].ctime <= k.ticks)
    && (forall e :: 0 <= e < |k.procs| && Expects(k, p, e) ==>
          k.procs[p].ctime <= k.procs[e].ctime <= k.ticks)
  }

  /** A process that never slept or yielded is not asleep; nobody is born in the future or before its parent. */
  ghost predicate AgeInv(k: Core) {
    k.WellFormed() && forall p :: 0 <= p < |k.procs| ==> AgeSlot(k, p)
  }

  /** What a slot goes through in a step that neither creates nor publishes a process. */
  ghost predicate CalmSlot(k: Core, k': Core, p: nat)
    requires k.WellFormed() && k'.WellFormed() && p < |k.procs| == |k'.procs|
  {
    && k'.procs[p].ctime == k.procs[p].ctime
    && (Alive(k'.procs[p]) ==> Alive(k.procs[p]))
    && (Clean(k', p) ==> Clean(k, p) && k'.procs[p].state != Sleeping)
    && (k'.tasks[p].place.Forking? && k'.tasks[p].place.stage >= 1 ==>
          Expects(k, p, k'.tasks[p].place.child))
  }

  ghost predicate Calm(k: Core, k': Core) {
    && k.WellFormed() && k'.WellFormed() && |k'.procs| == |k.procs| && k'.ticks >= k.ticks
    && forall p :: 0 <= p < |k.procs| ==> CalmSlot(k, k', p)
  }

  lemma CalmAges(k: Core, k': Core)
    requires AgeInv(k) && Calm(k, k')
    ensures AgeInv(k')
  {
    forall p | 0 <= p < |k'.procs|
      ensures AgeSlot(k', p)
    {
      assert AgeSlot(k, p) && CalmSlot(k, k', p);
      forall e | 0 <= e < |k'.procs| && Expects(k', p, e)
        ensures k'.procs[p].ctime <= k'.procs[e].ctime <= k'.ticks
      {
        assert CalmSlot(k, k', e);
      }
    }
  }

  lemma CalmPerformSlot(k: Core, p: nat, op: Op, q: nat)
    requires k.WellFormed() && p < |k.procs| && q < |k.procs| && k.procs[p].state == Running
    requires !op.Exit? && !op.Publish? && AgeSlot(k, q)
    requires Performed(k, p, op).WellFormed() && |Performed(k, p, op).procs| == |k.procs|
    ensures CalmSlot(k, Performed(k, p, op), q)
  {
    if op.Wait? {
      KernelTime.QuietWaited(k, p, q);
    } else {
      KernelTime.QuietPerformSlot(k, p, op, q);
    }
  }

  lemma CalmExitSlot(k: Core, p: nat, q: nat)
    requires k.WellFormed() && p < |k.procs| && q < |k.procs| && AgeSlot(k, q)
    requires Performed(k, p, Exit).WellFormed() && |Performed(k, p, Exit).procs| == |k.procs|
    ensures CalmSlot(k, Performed(k, p, Exit), q)
  {
    KernelTime.ExitedTimes(k.procs, p, k.init, k.ticks, q);
    ExitedSleepers(k.procs, p, k.init, k.ticks, q);
  }

  lemma ExitedSleepers(procs: seq<Proc>, cur: nat, init: nat, ticks: nat, q: nat)
    requires cur < |procs| && q < |procs|
    ensures Exited(procs, cur, init, ticks)[q].state == Sleeping ==> procs[q].state == Sleeping
  {
  }

  /** Outside critical sections a step puts nobody to sleep and marks nobody clean. */
  lemma CalmStepSlot(k: Core, c: nat, cpu: Cpu, act: Act, q: nat)
    requires k.WellFormed() && k.Fits(cpu) && Can(k, cpu, act) && !act.InitEmbryo? && !act.Perform?
    requires q < |k.procs|
    ensures var k' := NextCore(k, c, cpu, act);
            && |k'.procs| == |k.procs| && |k'.tasks| == |k.tasks|
            && (k'.procs[q].state == Sleeping ==> k.procs[q].state == Sleeping)
            && k'.tasks[q].clean == k.tasks[q].clean
  {
  }

  lemma CalmStep(k: Core, c: nat, cpu: Cpu, act: Act)
    requires AgeInv(k) && CpuInv(k, c, cpu) && Can(k, cpu, act)
    requires !act.InitEmbryo? && !(act.Perform? && cpu.ctl.op.Publish?)
    ensures Calm(k, NextCore(k, c, cpu, act))
  {
    CoreStep(k, c, cpu, act);
    var k' := NextCore(k, c, cpu, act);
    forall q | 0 <= q < |k.procs|
      ensures CalmSlot(k, k', q)
    {
      assert AgeSlot(k, q);
      if !act.Perform? {
        KernelTime.QuietStepSlot(k, c, cpu, act, q);
        CalmStepSlot(k, c, cpu, act, q);
      } else if cpu.ctl.op.Exit? {
        CalmExitSlot(k, cpu.ctl.p, q);
      } else {
        CalmPerformSlot(k, cpu.ctl.p, cpu.ctl.op, q);
      }
    }
    TicksKept(k, c, cpu, act);
  }

  lemma TicksKept(k: Core, c: nat, cpu: Cpu, act: Act)
    requires k.WellFormed() && k.Fits(cpu) && Can(k, cpu, act)
    ensures NextCore(k, c, cpu, act).ticks == k.ticks
    ensures !(act.Perform? && cpu.ctl.op.Exit?) ==> NextCore(k, c, cpu, act).gone == k.gone
  {
  }

  lemma CalmClock(s: State, step: Step)
    requires AgeInv(s.core) && s.WellFormed() && Enabled(s, step) && !step.On?
    ensures Calm(s.core, Next(s, step).core)
  {
    var k, k' := s.core, Next(s, step).core;
    forall q | 0 <= q < |k.procs|
      ensures CalmSlot(k, k', q)
    {
      assert AgeSlot(k, q);
    }
  }

  /** The embryo is born now; nothing else changes. */
  lemma BirthSlot(k: Core, c: nat, cpu: Cpu, q: nat)
    requires k.WellFormed() && FamilyInv(k) && k.Fits(cpu) && Can(k, cpu, InitEmbryo) && q < |k.procs|
    ensures var e := k.tasks[cpu.ctl.p].place.child;
            var k' := NextCore(k, c, cpu, InitEmbryo);
            && k'.WellFormed() && |k'.procs| == |k.procs| && e != cpu.ctl.p && !Alive(k'.procs[e])
            && (if q == e then k'.procs[e].ctime == k.ticks
                else k'.procs[q] == k.procs[q] && k'.tasks[q].clean == k.tasks[q].clean)
            && (k'.tasks[q].place.Forking? ==>
                  if q == cpu.ctl.p then k'.tasks[q].place.child == e
                  else k'.tasks[q].place == k.tasks[q].place && k'.tasks[q].place.child != e)
  {
    assert SlotInv(k, cpu.ctl.p);
  }

  lemma BirthAges(k: Core, c: nat, cpu: Cpu)
    requires AgeInv(k) && FamilyInv(k) && CpuInv(k, c, cpu) && Can(k, cpu, InitEmbryo)
    ensures AgeInv(NextCore(k, c, cpu, InitEmbryo))
  {
    var k' := NextCore(k, c, cpu, InitEmbryo);
    CoreStep(k, c, cpu, InitEmbryo);
    forall q | 0 <= q < |k'.procs|
      ensures AgeSlot(k', q)
    {
      assert AgeSlot(k, q);
      BirthSlot(k, c, cpu, q);
      forall x | 0 <= x < |k'.procs| && Expects(k', q, x)
        ensures k'.procs[q].ctime <= k'.procs[x].ctime <= k'.ticks
      {
        BirthSlot(k, c, cpu, x);
      }
    }
  }

  /** The embryo is handed over to the scheduler; nothing else changes. */
  lemma PublishSlot(k: Core, p: nat, q: nat)
    requires k.WellFormed() && FamilyInv(k) && p < |k.procs| && q < |k.procs|
    requires k.tasks[p].place.Forking?
    ensures var e := k.tasks[p].place.child;
            var k' := Performed(k, p, Publish);
            && k'.WellFormed() && |k'.procs| == |k.procs| && k'.procs[e].state == Runnable
            && k'.procs[q].ctime == k.procs[q].ctime
            && (q != e ==> k'.procs[q] == k.procs[q] && k'.tasks[q].clean == k.tasks[q].clean)
            && (k'.tasks[q].place.Forking? ==> q != e && k'.tasks[q].place == k.tasks[q].place)
  {
    CorePerformed(k, p, Publish);
    assert SlotInv(k, p) && SlotInv(k, k.tasks[p].place.child);
  }

  lemma PublishAges(k: Core, p: nat)
    requires AgeInv(k) && FamilyInv(k) && p < |k.procs|
    requires k.tasks[p].place.Forking? && k.tasks[p].place.stage == 2
    ensures AgeInv(Performed(k, p, Publish))
  {
    var k' := Performed(k, p, Publish);
    assert AgeSlot(k, p) && Expects(k, p, k.tasks[p].place.child);
    PublishSlot(k, p, p);
    forall q | 0 <= q < |k'.procs|
      ensures AgeSlot(k', q)
    {
      assert AgeSlot(k, q);
      PublishSlot(k, p, q);
      forall x | 0 <= x < |k'.procs| && Expects(k', q, x)
        ensures k'.procs[q].ctime <= k'.procs[x].ctime <= k'.ticks
      {
        PublishSlot(k, p, x);
      }
    }
  }

  lemma AgeStep(s: State, step: Step)
    requires Inv(s) && AgeInv(s.core) && s.WellFormed() && Enabled(s, step)
    ensures AgeInv(Next(s, step).core)
  {
    if step.On? {
      var k, cpu, act := s.core, s.cpus[step.c], step.act;
      assert CpuInv(k, step.c, cpu);
      if act.InitEmbryo? {
        BirthAges(k, step.c, cpu);
      } else if act.Perform? && cpu.ctl.op.Publish? {
        PublishAges(k, cpu.ctl.p);
      } else {
        CalmStep(k, step.c, cpu, act);
        CalmAges(k, NextCore(k, step.c, cpu, act));
      }
    } else {
      CalmClock(s, step);
      CalmAges(s.core, Next(s, step).core);
    }
  }

  lemma InitialAges(s: State)
    requires Initial(s)
    ensures AgeInv(s.core)
  {
    forall p | 0 <= p < |s.core.procs|
      ensures AgeSlot(s.core, p)
    {
      assert s.core.tasks[p] == Task(Ordinary, true);
    }
  }

  lemma {:induction false} RunAges(states: seq<State>, steps: seq<Step>, n: nat)
    requires IsRun(states, steps) && n < |states|
    ensures AgeInv(states[n].core)
  {
    if n == 0 {
      InitialAges(states[0]);
    } else {
      RunAges(states, steps, n - 1);
      RunInv(states, steps, n - 1);
      assert StepAt(states, steps, n - 1);
      AgeStep(states[n - 1], steps[n - 1]);
    }
  }

  // ---------- FCFS on one CPU ----------

  /** Everything that exited without sleeping or yielding, from exit `g` on, did so in order of creation. */
  ghost predicate SortedExits(gone: seq<Gone>, g: nat) {
    forall i, j :: g <= i < j < |gone| && gone[i].clean && gone[j].clean ==> gone[i].ctime <= gone[j].ctime
  }

  /** A process created at `ctime` is no older than any of these. */
  ghost predicate AfterExits(k: Core, g: nat, ctime: nat) {
    forall i :: g <= i < |k.gone| && k.gone[i].clean ==> k.gone[i].ctime <= ctime
  }

  ghost predicate FcfsSlot(k: Core, g: nat, p: nat)
    requires k.WellFormed() && p < |k.procs|
  {
    && (Clean(k, p) ==> AfterExits(k, g, k.procs[p].ctime))
    && (forall e :: 0 <= e < |k.procs| && Expects(k, p, e) ==> AfterExits(k, g, k.procs[e].ctime))
  }

  /** The CPU is in no scan and comes back to none. */
  predicate FcfsControl(cpu: Cpu) {
    !cpu.ctl.Scan? && (cpu.Uses().Some? ==> cpu.back == Leave)
  }

  /** A choice under way is one of the policy in force. */
  predicate CurrentChoice(k: Core, cpu: Cpu) {
    cpu.ctl.Choose? ==> k.policy == if cpu.ctl.lottery then 2 else 1
  }

  /** Slot `q` waits with a process or an embryo no older than `ctime`. */
  ghost predicate Behind(k: Core, ctime: nat, q: nat)
    requires k.WellFormed() && q < |k.procs|
  {
    && (Clean(k, q) ==> ctime <= k.procs[q].ctime)
    && (forall e :: 0 <= e < |k.procs| && Expects(k, q, e) ==> ctime <= k.procs[e].ctime)
  }

  /** If the process on the CPU never slept or yielded, it is the oldest of its kind. */
  ghost predicate OnOldest(k: Core, cpu: Cpu)
    requires k.WellFormed() && k.Fits(cpu)
  {
    cpu.Uses().Some? && Clean(k, cpu.Uses().value) ==>
      forall q :: 0 <= q < |k.procs| ==> Behind(k, k.procs[cpu.Uses().value].ctime, q)
  }

  /** The scheduler owes nothing to another policy: no scan to finish, and nobody put on the CPU out of order. */
  ghost predicate Settled(s: State) {
    s.WellFormed() && |s.cpus| == 1 && FcfsControl(s.cpus[0]) && OnOldest(s.core, s.cpus[0])
  }

  /** The order since exit `g`. */
  ghost predicate FcfsInv(k: Core, cpu: Cpu, g: nat) {
    && k.WellFormed() && k.Fits(cpu) && k.policy == 1 && g <= |k.gone|
    && SortedExits(k.gone, g)
    && (forall i :: g <= i < |k.gone| ==> k.gone[i].ctime <= k.ticks)
    && (forall p :: 0 <= p < |k.procs| ==> FcfsSlot(k, g, p))
    && FcfsControl(cpu) && CurrentChoice(k, cpu) && OnOldest(k, cpu)
  }

  lemma CalmFcfsSlot(k: Core, k': Core, g: nat, p: nat)
    requires Calm(k, k') && p < |k.procs| && FcfsSlot(k, g, p) && k'.gone == k.gone
    ensures FcfsSlot(k', g, p)
  {
    assert CalmSlot(k, k', p);
    forall e | 0 <= e < |k'.procs| && Expects(k', p, e)
      ensures AfterExits(k', g, k'.procs[e].ctime)
    {
      assert CalmSlot(k, k', e);
    }
  }

  lemma CalmBehind(k: Core, k': Core, ctime: nat, q: nat)
    requires Calm(k, k') && q < |k.procs| && Behind(k, ctime, q)
    ensures Behind(k', ctime, q)
  {
    assert CalmSlot(k, k', q);
    forall e | 0 <= e < |k'.procs| && Expects(k', q, e)
      ensures ctime <= k'.procs[e].ctime
    {
      assert CalmSlot(k, k', e);
    }
  }

  /** A calm step keeps the order, as long as the CPU stays on its process or leaves it. */
  lemma CalmKeeps(k: Core, k': Core, cpu: Cpu, cpu': Cpu, g: nat)
    requires FcfsInv(k, cpu, g) && Calm(k, k') && k'.gone == k.gone && k'.policy == 1
    requires k'.Fits(cpu') && FcfsControl(cpu') && CurrentChoice(k', cpu')
    requires (cpu'.Uses() == None || cpu'.Uses() == cpu.Uses())
    ensures FcfsInv(k', cpu', g)
  {
    forall p | 0 <= p < |k.procs|
      ensures FcfsSlot(k', g, p)
    {
      CalmFcfsSlot(k, k', g, p);
    }
    if cpu'.Uses().Some? && Clean(k', cpu'.Uses().value) {
      var u := cpu'.Uses().value;
      assert CalmSlot(k, k', u);
      forall q | 0 <= q < |k'.procs|
        ensures Behind(k', k'.procs[u].ctime, q)
      {
        CalmBehind(k, k', k.procs[u].ctime, q);
      }
    }
  }

  /** Only the process on the one CPU is running. */
  ghost predicate OneRunning(k: Core, cpu: Cpu) {
    forall p :: 0 <= p < |k.procs| && k.procs[p].state == Running ==> cpu.Executes() == Some(p)
  }

  lemma OneRunningHolds(s: State)
    requires SchedInv(s) && |s.cpus| == 1
    ensures OneRunning(s.core, s.cpus[0])
  {
    forall p | 0 <= p < |s.core.procs| && s.core.procs[p].state == Running
      ensures s.cpus[0].Executes() == Some(p)
    {
      assert SomeCpuExecutes(s, p);
    }
  }

  /** The oldest runnable process is older than everything that waits, preempted forks included. */
  lemma OldestBehind(k: Core, cpu: Cpu, i: nat, q: nat)
    requires AgeInv(k) && FamilyInv(k) && OneRunning(k, cpu) && cpu.ctl.Choose? && Oldest(k.procs, i) && q < |k.procs|
    ensures i < |k.procs| && Behind(k, k.procs[i].ctime, q)
  {
    assert AgeSlot(k, q) && SlotInv(k, q);
  }

  lemma ChooseFcfs(k: Core, c: nat, cpu: Cpu, g: nat, i: nat)
    requires FcfsInv(k, cpu, g) && AgeInv(k) && FamilyInv(k) && OneRunning(k, cpu) && Can(k, cpu, ChoosePick(i))
    ensures FcfsInv(NextCore(k, c, cpu, ChoosePick(i)), NextCpu(k, cpu, ChoosePick(i)), g)
  {
    var k' := NextCore(k, c, cpu, ChoosePick(i));
    assert k'.procs == k.procs && k'.tasks == k.tasks && k'.gone == k.gone;
    forall q | 0 <= q < |k.procs|
      ensures FcfsSlot(k', g, q)
      ensures Behind(k', k.procs[i].ctime, q)
    {
      assert FcfsSlot(k, g, q);
      OldestBehind(k, cpu, i, q);
      assert Behind(k, k.procs[i].ctime, q);
    }
  }

  lemma BirthFcfs(k: Core, c: nat, cpu: Cpu, g: nat)
    requires FcfsInv(k, cpu, g) && AgeInv(k) && FamilyInv(k) && CpuInv(k, c, cpu) && Can(k, cpu, InitEmbryo)
    ensures FcfsInv(NextCore(k, c, cpu, InitEmbryo), cpu, g)
  {
    CoreStep(k, c, cpu, InitEmbryo);
    var k' := NextCore(k, c, cpu, InitEmbryo);
    BirthSlot(k, c, cpu, cpu.ctl.p);
    assert AgeSlot(k, cpu.ctl.p);
    forall q | 0 <= q < |k.procs|
      ensures FcfsSlot(k', g, q)
    {
      BirthFcfsSlot(k, c, cpu, g, q);
    }
    forall q | 0 <= q < |k.procs| && Clean(k', cpu.ctl.p)
      ensures Behind(k', k'.procs[cpu.ctl.p].ctime, q)
    {
      BirthBehind(k, c, cpu, k.procs[cpu.ctl.p].ctime, q);
    }
  }

  lemma BirthFcfsSlot(k: Core, c: nat, cpu: Cpu, g: nat, q: nat)
    requires FcfsInv(k, cpu, g) && FamilyInv(k) && Can(k, cpu, InitEmbryo) && q < |k.procs|
    requires NextCore(k, c, cpu, InitEmbryo).WellFormed() && |NextCore(k, c, cpu, InitEmbryo).procs| == |k.procs|
    ensures FcfsSlot(NextCore(k, c, cpu, InitEmbryo), g, q)
  {
    var k' := NextCore(k, c, cpu, InitEmbryo);
    assert FcfsSlot(k, g, q);
    BirthSlot(k, c, cpu, q);
    TicksKept(k, c, cpu, InitEmbryo);
    forall x | 0 <= x < |k'.procs| && Expects(k', q, x)
      ensures AfterExits(k', g, k'.procs[x].ctime)
    {
      BirthSlot(k, c, cpu, x);
    }
  }

  lemma BirthBehind(k: Core, c: nat, cpu: Cpu, ctime: nat, q: nat)
    requires k.WellFormed() && k.Fits(cpu) && FamilyInv(k) && Can(k, cpu, InitEmbryo) && q < |k.procs|
    requires NextCore(k, c, cpu, InitEmbryo).WellFormed() && |NextCore(k, c, cpu, InitEmbryo).procs| == |k.procs|
    requires Behind(k, ctime, q) && ctime <= k.ticks
    ensures Behind(NextCore(k, c, cpu, InitEmbryo), ctime, q)
  {
    var k' := NextCore(k, c, cpu, InitEmbryo);
    BirthSlot(k, c, cpu, q);
    forall x | 0 <= x < |k'.procs| && Expects(k', q, x)
      ensures ctime <= k'.procs[x].ctime
    {
      BirthSlot(k, c, cpu, x);
    }
  }

  lemma PublishFcfs(k: Core, p: nat, cpu: Cpu, cpu': Cpu, g: nat)
    requires FcfsInv(k, cpu, g) && FamilyInv(k) && cpu.Uses() == cpu'.Uses() == Some(p) && cpu'.back == cpu.back
    requires k.tasks[p].place.Forking? && k.tasks[p].place.stage == 2 && Performed(k, p, Publish).Fits(cpu')
    ensures FcfsInv(Performed(k, p, Publish), cpu', g)
  {
    var k' := Performed(k, p, Publish);
    PublishSlot(k, p, p);
    forall q | 0 <= q < |k.procs|
      ensures FcfsSlot(k', g, q)
    {
      PublishFcfsSlot(k, p, g, q);
    }
    assert SlotInv(k, p);
    forall q | 0 <= q < |k.procs| && Clean(k', p)
      ensures Behind(k', k'.procs[p].ctime, q)
    {
      PublishBehind(k, p, k.procs[p].ctime, q);
    }
  }

  lemma PublishFcfsSlot(k: Core, p: nat, g: nat, q: nat)
    requires k.WellFormed() && FamilyInv(k) && p < |k.procs| && q < |k.procs|
    requires k.tasks[p].place.Forking? && k.tasks[p].place.stage == 2
    requires FcfsSlot(k, g, p) && FcfsSlot(k, g, q)
    requires Performed(k, p, Publish).WellFormed() && |Performed(k, p, Publish).procs| == |k.procs|
    ensures FcfsSlot(Performed(k, p, Publish), g, q)
  {
    var k' := Performed(k, p, Publish);
    PublishSlot(k, p, q);
    assert Expects(k, p, k.tasks[p].place.child);
    forall x | 0 <= x < |k'.procs| && Expects(k', q, x)
      ensures AfterExits(k', g, k'.procs[x].ctime)
    {
      PublishSlot(k, p, x);
    }
  }

  lemma PublishBehind(k: Core, p: nat, ctime: nat, q: nat)
    requires k.WellFormed() && FamilyInv(k) && p < |k.procs| && q < |k.procs|
    requires k.tasks[p].place.Forking? && k.tasks[p].place.stage == 2
    requires Behind(k, ctime, p) && Behind(k, ctime, q)
    requires Performed(k, p, Publish).WellFormed() && |Performed(k, p, Publish).procs| == |k.procs|
    ensures Behind(Performed(k, p, Publish), ctime, q)
  {
    var k' := Performed(k, p, Publish);
    PublishSlot(k, p, q);
    assert Expects(k, p, k.tasks[p].place.child);
    forall x | 0 <= x < |k'.procs| && Expects(k', q, x)
      ensures ctime <= k'.procs[x].ctime
    {
      PublishSlot(k, p, x);
    }
  }

  /** Whoever waits behind the process that exits comes after its exit too. */
  lemma ExitFcfsSlot(k: Core, k': Core, p: nat, g: nat, q: nat)
    requires Calm(k, k') && p < |k.procs| && q < |k.procs| && FcfsSlot(k, g, q)
    requires k'.gone == k.gone + [Gone(k.procs[p].ctime, k.tasks[p].clean)]
    requires k.tasks[p].clean ==> Behind(k, k.procs[p].ctime, q)
    ensures FcfsSlot(k', g, q)
  {
    assert CalmSlot(k, k', q);
    forall e | 0 <= e < |k'.procs| && Expects(k', q, e)
      ensures AfterExits(k', g, k'.procs[e].ctime)
    {
      assert CalmSlot(k, k', e);
      assert Expects(k, q, e);
    }
  }

  /** The exit comes after all exits so far and before everybody who waits. */
  lemma ExitFcfs(k: Core, p: nat, cpu: Cpu, cpu': Cpu, g: nat)
    requires FcfsInv(k, cpu, g) && AgeInv(k) && cpu.Uses() == Some(p) && Alive(k.procs[p])
    requires Calm(k, Performed(k, p, Exit)) && cpu'.back == cpu.back && cpu'.ctl == Switching(p)
    ensures FcfsInv(Performed(k, p, Exit), cpu', g)
  {
    var k' := Performed(k, p, Exit);
    assert FcfsSlot(k, g, p) && AgeSlot(k, p);
    assert Clean(k, p) == k.tasks[p].clean;
    forall q | 0 <= q < |k.procs|
      ensures FcfsSlot(k', g, q)
    {
      ExitFcfsSlot(k, k', p, g, q);
    }
    KernelTime.ExitedTimes(k.procs, p, k.init, k.ticks, p);
    assert !Clean(k', p);
  }

  lemma ControlStep(k: Core, cpu: Cpu, act: Act)
    requires k.WellFormed() && k.Fits(cpu) && Can(k, cpu, act) && CurrentChoice(k, cpu)
    ensures CurrentChoice(NextCore(k, 0, cpu, act), NextCpu(k, cpu, act))
    ensures FcfsControl(cpu) && k.policy == 1 ==> FcfsControl(NextCpu(k, cpu, act))
    ensures FcfsControl(cpu) && !act.ChoosePick? ==>
              NextCpu(k, cpu, act).Uses() == None || NextCpu(k, cpu, act).Uses() == cpu.Uses()
  {
  }

  lemma ActFcfs(k: Core, cpu: Cpu, act: Act, g: nat)
    requires FcfsInv(k, cpu, g) && AgeInv(k) && FamilyInv(k) && CpuInv(k, 0, cpu) && OneRunning(k, cpu)
    requires Can(k, cpu, act) && NextCore(k, 0, cpu, act).policy == 1
    ensures FcfsInv(NextCore(k, 0, cpu, act), NextCpu(k, cpu, act), g)
  {
    CoreStep(k, 0, cpu, act);
    ControlStep(k, cpu, act);
    if act.InitEmbryo? {
      BirthFcfs(k, 0, cpu, g);
    } else if act.ChoosePick? {
      ChooseFcfs(k, 0, cpu, g, act.i);
    } else if act.Perform? && cpu.ctl.op.Publish? {
      PublishFcfs(k, cpu.ctl.p, cpu, NextCpu(k, cpu, act), g);
    } else {
      CalmStep(k, 0, cpu, act);
      if act.Perform? && cpu.ctl.op.Exit? {
        ExitFcfs(k, cpu.ctl.p, cpu, NextCpu(k, cpu, act), g);
      } else {
        TicksKept(k, 0, cpu, act);
        CalmKeeps(k, NextCore(k, 0, cpu, act), cpu, NextCpu(k, cpu, act), g);
      }
    }
  }

  lemma FcfsStep(s: State, step: Step, g: nat)
    requires |s.cpus| == 1 && Inv(s) && AgeInv(s.core) && FcfsInv(s.core, s.cpus[0], g)
    requires s.WellFormed() && Enabled(s, step) && Next(s, step).core.policy == 1
    ensures |Next(s, step).cpus| == 1 && FcfsInv(Next(s, step).core, Next(s, step).cpus[0], g)
  {
    if step.On? {
      assert CpuInv(s.core, 0, s.cpus[0]);
      OneRunningHolds(s);
      ActFcfs(s.core, s.cpus[0], step.act, g);
    } else {
      CalmClock(s, step);
      CalmKeeps(s.core, Next(s, step).core, s.cpus[0], s.cpus[0], g);
    }
  }

  /** FCFS is the policy from state `lo` on, to state `n`. */
  ghost predicate FcfsFrom(states: seq<State>, lo: nat, n: nat) {
    forall m :: lo <= m <= n < |states| ==> states[m].core.policy == 1
  }

  /** On one CPU nobody can change the policy while the scheduler chooses. */
  lemma {:induction false} RunChoices(states: seq<State>, steps: seq<Step>, n: nat)
    requires IsRun(states, steps) && n < |states| && |states[0].cpus| == 1
    ensures |states[n].cpus| == 1 && CurrentChoice(states[n].core, states[n].cpus[0])
  {
    if n > 0 {
      RunChoices(states, steps, n - 1);
      assert StepAt(states, steps, n - 1);
      if steps[n - 1].On? {
        ControlStep(states[n - 1].core, states[n - 1].cpus[0], steps[n - 1].act);
      }
    }
  }

  lemma {:induction false} RunFcfs(states: seq<State>, steps: seq<Step>, lo: nat, n: nat)
    requires IsRun(states, steps) && lo <= n < |states| && FcfsFrom(states, lo, n) && Settled(states[lo])
    ensures |states[n].cpus| == 1 && FcfsInv(states[n].core, states[n].cpus[0], |states[lo].core.gone|)
    decreases n
  {
    if lo == n {
      KernelTime.SameCpus(states, steps, lo);
      RunChoices(states, steps, lo);
    } else {
      RunFcfs(states, steps, lo, n - 1);
      RunInv(states, steps, n - 1);
      RunAges(states, steps, n - 1);
      assert StepAt(states, steps, n - 1);
      FcfsStep(states[n - 1], steps[n - 1], |states[lo].core.gone|);
    }
  }

  /** On one CPU, from any settled state of any run and for as long as the policy is FCFS, the processes that exit
      without ever having slept or yielded do so in nondecreasing order of ctime. */
  lemma FcfsExitsInOrder(states: seq<State>, steps: seq<Step>, lo: nat, n: nat, i: nat, j: nat)
    requires IsRun(states, steps) && lo <= n < |states| && FcfsFrom(states, lo, n) && Settled(states[lo])
    requires |states[lo].core.gone| <= i < j < |states[n].core.gone|
    requires states[n].core.gone[i].clean && states[n].core.gone[j].clean
    ensures states[n].core.gone[i].ctime <= states[n].core.gone[j].ctime
  {
    RunFcfs(states, steps, lo, n);
  }
}
