/** Processes and CPUs as a state machine: every CPU runs `scheduler` or one process, `ptable.lock` is handed
    across `swtch`, and the steps are the code between two lock operations or context switches. */
module Kernel {
  import opened ProcTypes
  import opened ProcTable
  import Lottery
  import Lcg

  // ---------- State ----------

  /** What a process does once it holds `ptable.lock`. */
  datatype Op =
    | Yield                    // trap.c, timer
    | Sleep(address: nat)      // sleep() on a channel that is not a process
    | Exit
    | Wait                     // wait() and waitx()
    | WakeupOn(address: nat)
    | Kill(pid: int)
    | Alloc                    // allocproc(), from fork()
    | Publish                  // the last section of fork()
    | SetTickets(n: int)

  /** Where a CPU is. `Idle` and `Run` do not hold `ptable.lock`; every other location does. */
  datatype Control =
    | Idle                     // scheduler(), before acquire
    | Scan(pos: nat)           // scheduler(), round robin, about to look at slot `pos`
    | Choose(lottery: bool)    // scheduler(), about to choose under FCFS or the lottery
    | Leave                    // scheduler(), about to release
    | Dispatching(p: nat)      // scheduler(), c->proc is set, state not yet RUNNING
    | Resumed(p: nat)          // process `p` just switched to
    | Run(p: nat)
    | Locked(p: nat, op: Op)
    | Switching(p: nat)        // process `p` in sched(), still on its kernel stack
    | Interrupt(address: nat)  // an interrupt on an idle CPU, inside wakeup()

  /** `proc` is c->proc; `back` is the saved scheduler context. */
  datatype Cpu = Cpu(proc: Option<nat>, ctl: Control, back: Control) {

    /** The process whose kernel stack and page directory the CPU uses. */
    function Uses(): Option<nat> {
      match ctl
      case Dispatching(p) => Some(p)
      case Resumed(p) => Some(p)
      case Run(p) => Some(p)
      case Locked(p, _) => Some(p)
      case Switching(p) => Some(p)
      case _ => None
    }

    /** The process executing on the CPU, once switched to and until it gives up the CPU. */
    function Executes(): Option<nat> {
      match ctl
      case Resumed(p) => Some(p)
      case Run(p) => Some(p)
      case Locked(p, _) => Some(p)
      case _ => None
    }

    predicate HoldsLock() {
      !ctl.Idle? && !ctl.Run?
    }
  }

  /** Where a process is in its own kernel code: `Forking(child, stage)` owns an embryo, whose fields
      (stage 1) and parent (stage 2) it fills in without the lock. */
  datatype Place = Ordinary | InSleep | InWait | Forking(child: nat, stage: nat)

  /** `clean` is history: the process has neither slept nor yielded since its creation. */
  datatype Task = Task(place: Place, clean: bool)

  /** History of one exit. */
  datatype Gone = Gone(ctime: nat, clean: bool)

  /** How far CPU 0 is in the timer interrupt: not in it, past `ticks++`, past `wakeup(&ticks)`. */
  datatype Clock = Still | Ticked | Woken

  /** The channel &ticks; addresses are only ever compared. */
  const TICKS: nat := 0

  /** The shared part of the state; `lock` is the CPU that holds `ptable.lock`. */
  datatype Core = Core(procs: seq<Proc>, tasks: seq<Task>, lock: Option<nat>, init: nat, policy: int,
                       seed: nat, nextPid: int, ticks: nat, clock: Clock, gone: seq<Gone>)
  {
    function SetProc(p: nat, proc: Proc): Core
      requires p < |procs|
    {
      this.(procs := procs[p := proc])
    }

    function SetPlace(p: nat, place: Place): Core
      requires p < |tasks|
    {
      this.(tasks := tasks[p := tasks[p].(place := place)])
    }

    function Dirty(p: nat): Core
      requires p < |tasks|
    {
      this.(tasks := tasks[p := tasks[p].(clean := false)])
    }

    ghost predicate WellFormed() {
      && |tasks| == |procs| && init < |procs|
      && forall p :: 0 <= p < |tasks| && tasks[p].place.Forking? ==> tasks[p].place.child < |procs|
    }

    /** Every index a CPU holds is in range. */
    ghost predicate Fits(cpu: Cpu) {
      && (cpu.Uses().Some? ==> cpu.Uses().value < |procs|)
      && (cpu.ctl.Scan? ==> cpu.ctl.pos <= |procs|)
      && (cpu.back.Leave? || (cpu.back.Scan? && cpu.back.pos <= |procs|))
    }
  }

  datatype State = State(core: Core, cpus: seq<Cpu>) {
    ghost predicate WellFormed() {
      core.WellFormed() && forall c :: 0 <= c < |cpus| ==> core.Fits(cpus[c])
    }
  }

  // ---------- Steps ----------

  /** One step of one CPU. */
  datatype Act =
    | SchedAcquire | ScanSkip | ScanPick | ScanEnd | ChoosePick(i: nat) | ChooseNone | SchedRelease | Enter
    | Resume | Acquire(op: Op) | Perform | SwitchAway
    | InterruptAcquire(address: nat) | InterruptWakeup
    | InitEmbryo | CopyParent | ForkFail | KillSelf | SetPolicy(policy: int)

  /** `Tick`, `WakeTicks` and `AccountAll` are the timer interrupt on CPU 0, which runs with interrupts off: CPU 0 takes
      no other step until it is over, while the other CPUs go on. */
  datatype Step = On(c: nat, act: Act) | Tick | WakeTicks | AccountAll

  /** The choice of the FCFS and lottery branches. */
  ghost predicate Chosen(k: Core, lottery: bool, i: nat) {
    if lottery then
      Lottery.DrawTotal(k.procs) > 0 && Lottery.Wins(k.procs, Lcg.Step(k.seed) % Lottery.DrawTotal(k.procs), i)
    else
      Oldest(k.procs, i)
  }

  function Drawn(k: Core, lottery: bool): nat {
    if lottery && Lottery.DrawTotal(k.procs) > 0 then Lcg.Step(k.seed) else k.seed
  }

  /** Which operations a process may start: one inside `fork` only finishes it, is preempted, or takes an interrupt
      whose handler wakes somebody. */
  ghost predicate MayStart(k: Core, p: nat, op: Op)
    requires p < |k.tasks|
  {
    match k.tasks[p].place
    case Ordinary => !op.Publish? && (op.Yield? ==> k.policy != 1) && (op.Exit? ==> p != k.init)
    case Forking(_, stage) => (op.Yield? && k.policy != 1) || (op.Publish? && stage == 2) || op.WakeupOn?
    case _ => false
  }

  /** The stage of the `fork` that the CPU's process is in, if any. */
  function ForkStage(k: Core, cpu: Cpu): Option<nat> {
    if cpu.ctl.Run? && cpu.ctl.p < |k.tasks| && k.tasks[cpu.ctl.p].place.Forking?
    then Some(k.tasks[cpu.ctl.p].place.stage) else None
  }

  ghost predicate Can(k: Core, cpu: Cpu, act: Act)
    requires k.WellFormed() && k.Fits(cpu)
  {
    match act
    case SchedAcquire => cpu.ctl.Idle? && k.lock == None
    case ScanSkip => cpu.ctl.Scan? && cpu.ctl.pos < |k.procs| && k.procs[cpu.ctl.pos].state != Runnable
    case ScanPick => cpu.ctl.Scan? && cpu.ctl.pos < |k.procs| && k.procs[cpu.ctl.pos].state == Runnable
    case ScanEnd => cpu.ctl.Scan? && cpu.ctl.pos == |k.procs|
    case ChoosePick(i) =>
      cpu.ctl.Choose? && i < |k.procs| && k.procs[i].state == Runnable && Chosen(k, cpu.ctl.lottery, i)
    case ChooseNone => cpu.ctl.Choose? && forall i: nat :: !Chosen(k, cpu.ctl.lottery, i)
    case SchedRelease => cpu.ctl.Leave?
    case Enter => cpu.ctl.Dispatching?
    case Resume => cpu.ctl.Resumed?
    case Acquire(op) => cpu.ctl.Run? && k.lock == None && MayStart(k, cpu.ctl.p, op)
    case Perform => cpu.ctl.Locked?
    case SwitchAway => cpu.ctl.Switching?
    case InterruptAcquire(address) => cpu.ctl.Idle? && k.lock == None
    case InterruptWakeup => cpu.ctl.Interrupt?
    case InitEmbryo => ForkStage(k, cpu) == Some(0)
    case CopyParent => ForkStage(k, cpu) == Some(1)
    case ForkFail => ForkStage(k, cpu) == Some(0) || ForkStage(k, cpu) == Some(1)
    case KillSelf => cpu.ctl.Run?
    case SetPolicy(policy) => cpu.ctl.Run? && 0 <= policy <= 2
  }

  /** The shared state after the critical section that process `p` runs for `op`. */
  ghost function Performed(k: Core, p: nat, op: Op): Core
    requires k.WellFormed() && p < |k.procs|
  {
    match op
    case Yield => k.SetProc(p, k.procs[p].(state := Runnable)).Dirty(p)
    case Sleep(address) =>
      k.SetProc(p, k.procs[p].(state := Sleeping, chan := Some(OnAddr(address)))).SetPlace(p, InSleep).Dirty(p)
    case Exit =>
      k.(procs := Exited(k.procs, p, k.init, k.ticks), gone := k.gone + [Gone(k.procs[p].ctime, k.tasks[p].clean)])
    case Wait => Waited(k, p)
    case WakeupOn(address) => k.(procs := Wakeup(k.procs, OnAddr(address)), lock := None)
    case Kill(pid) =>
      if exists v: nat :: FirstWithPid(k.procs, pid, v) then
        var v: nat :| FirstWithPid(k.procs, pid, v);
        k.SetProc(v, Killed(k.procs[v])).(lock := None)
      else k.(lock := None)
    case Alloc =>
      if exists e: nat :: FirstUnused(k.procs, e) then
        var e: nat :| FirstUnused(k.procs, e);
        k.SetProc(e, k.procs[e].(state := Embryo, pid := k.nextPid)).(nextPid := k.nextPid + 1, lock := None)
         .SetPlace(p, Forking(e, 0))
      else k.(lock := None)
    case Publish =>
      if k.tasks[p].place.Forking? then
        var e := k.tasks[p].place.child;
        k.SetProc(e, k.procs[e].(state := Runnable)).SetPlace(p, Ordinary).(lock := None)
      else k.(lock := None)
    case SetTickets(n) =>
      if n >= 1 then k.SetProc(p, k.procs[p].(tickets := n)).(lock := None) else k.(lock := None)
  }

  ghost predicate WaitSleeps(k: Core, p: nat)
    requires p < |k.procs|
  {
    && (forall z: nat :: !FirstZombieChild(k.procs, p, z))
    && HasChild(k.procs, p) && !k.procs[p].killed
  }

  ghost function Waited(k: Core, p: nat): Core
    requires k.WellFormed() && p < |k.procs|
  {
    if WaitSleeps(k, p) then
      k.SetProc(p, k.procs[p].(state := Sleeping, chan := Some(OnProc(p)))).SetPlace(p, InWait).Dirty(p)
    else if exists z: nat :: FirstZombieChild(k.procs, p, z) then
      var z: nat :| FirstZombieChild(k.procs, p, z);
      k.SetProc(z, Reaped(k.procs[z])).SetPlace(p, Ordinary).(lock := None)
    else k.SetPlace(p, Ordinary).(lock := None)
  }

  /** Whether the section for `op` ends in `sched` rather than in a release of the lock. */
  ghost predicate GivesUpCpu(k: Core, p: nat, op: Op)
    requires p < |k.procs|
  {
    op.Yield? || op.Sleep? || op.Exit? || (op.Wait? && WaitSleeps(k, p))
  }

  /** The shared state after one step of CPU `c`. */
  ghost function NextCore(k: Core, c: nat, cpu: Cpu, act: Act): Core
    requires k.WellFormed() && k.Fits(cpu) && Can(k, cpu, act)
  {
    match act
    case SchedAcquire => k.(lock := Some(c))
    case ChoosePick(i) => k.(seed := Drawn(k, cpu.ctl.lottery))
    case ChooseNone => k.(seed := Drawn(k, cpu.ctl.lottery))
    case SchedRelease => k.(lock := None)
    case Enter => k.SetProc(cpu.ctl.p, k.procs[cpu.ctl.p].(state := Running))
    case Resume =>
      var p := cpu.ctl.p;
      (match k.tasks[p].place
       case InSleep => k.SetProc(p, k.procs[p].(chan := None)).SetPlace(p, Ordinary).(lock := None)
       case InWait => k.SetProc(p, k.procs[p].(chan := None))
       case _ => k.(lock := None))
    case Acquire(op) => k.(lock := Some(c))
    case Perform => Performed(k, cpu.ctl.p, cpu.ctl.op)
    case InterruptAcquire(address) => k.(lock := Some(c))
    case InterruptWakeup => k.(procs := Wakeup(k.procs, OnAddr(cpu.ctl.address)), lock := None)
    case InitEmbryo =>
      var p := cpu.ctl.p;
      var e := k.tasks[p].place.child;
      k.SetProc(e, k.procs[e].(stack := true, ctime := k.ticks, etime := 0, rtime := 0, retime := 0, stime := 0,
                               tickets := 10, originalTickets := 10))
       .(tasks := k.tasks[e := Task(Ordinary, true)][p := k.tasks[p].(place := Forking(e, 1))])
    case CopyParent =>
      var p := cpu.ctl.p;
      var e := k.tasks[p].place.child;
      var t := if k.procs[p].tickets > 0 then k.procs[p].tickets else 1;
      k.SetProc(e, k.procs[e].(parent := Some(p), tickets := t, originalTickets := t)).SetPlace(p, Forking(e, 2))
    case ForkFail =>
      var p := cpu.ctl.p;
      var e := k.tasks[p].place.child;
      k.SetProc(e, k.procs[e].(state := Unused, stack := false)).SetPlace(p, Ordinary)
    case KillSelf => k.SetProc(cpu.ctl.p, k.procs[cpu.ctl.p].(killed := true))
    case SetPolicy(policy) => k.(policy := policy)
    case _ => k
  }

  /** The stepping CPU after its step. */
  ghost function NextCpu(k: Core, cpu: Cpu, act: Act): Cpu
    requires k.WellFormed() && k.Fits(cpu) && Can(k, cpu, act)
  {
    match act
    case SchedAcquire =>
      cpu.(ctl := if k.policy == 1 then Choose(false) else if k.policy == 2 then Choose(true) else Scan(0))
    case ScanSkip => cpu.(ctl := Scan(cpu.ctl.pos + 1))
    case ScanPick => Cpu(Some(cpu.ctl.pos), Dispatching(cpu.ctl.pos), Scan(cpu.ctl.pos + 1))
    case ScanEnd => cpu.(ctl := Leave)
    case ChoosePick(i) => Cpu(Some(i), Dispatching(i), Leave)
    case ChooseNone => cpu.(ctl := Leave)
    case SchedRelease => cpu.(ctl := Idle)
    case Enter => cpu.(ctl := Resumed(cpu.ctl.p))
    case Resume => cpu.(ctl := if k.tasks[cpu.ctl.p].place.InWait? then Locked(cpu.ctl.p, Wait) else Run(cpu.ctl.p))
    case Acquire(op) => cpu.(ctl := Locked(cpu.ctl.p, op))
    case Perform =>
      cpu.(ctl := if GivesUpCpu(k, cpu.ctl.p, cpu.ctl.op) then Switching(cpu.ctl.p) else Run(cpu.ctl.p))
    case SwitchAway => Cpu(None, cpu.back, cpu.back)
    case InterruptAcquire(address) => cpu.(ctl := Interrupt(address))
    case InterruptWakeup => cpu.(ctl := Idle)
    case _ => cpu
  }

  ghost predicate Enabled(s: State, step: Step)
    requires s.WellFormed()
  {
    match step
    case On(c, act) => c < |s.cpus| && (c == 0 ==> s.core.clock == Still) && Can(s.core, s.cpus[c], act)
    case Tick => s.core.clock == Still && 0 < |s.cpus| && (s.cpus[0].ctl.Idle? || s.cpus[0].ctl.Run?)
    case WakeTicks => s.core.clock == Ticked && s.core.lock == None
    case AccountAll => s.core.clock == Woken && s.core.lock == None
  }

  ghost function Next(s: State, step: Step): State
    requires s.WellFormed() && Enabled(s, step)
  {
    match step
    case On(c, act) =>
      State(NextCore(s.core, c, s.cpus[c], act), s.cpus[c := NextCpu(s.core, s.cpus[c], act)])
    case Tick => s.(core := s.core.(ticks := s.core.ticks + 1, clock := Ticked))
    case WakeTicks => s.(core := s.core.(procs := Wakeup(s.core.procs, OnAddr(TICKS)), clock := Woken))
    case AccountAll => s.(core := s.core.(procs := Account(s.core.procs), clock := Still))
  }

  /** The machine after `userinit`: one runnable process, round robin, every CPU about to enter `scheduler`. */
  ghost predicate Initial(s: State) {
    var k := s.core;
    && k.WellFormed()
    && k.lock == None && k.policy == 0 && k.clock == Still && k.gone == []
    && (forall c :: 0 <= c < |s.cpus| ==> s.cpus[c] == Cpu(None, Idle, Leave))
    && (forall p :: 0 <= p < |k.tasks| ==> k.tasks[p] == Task(Ordinary, true))
    && (forall p :: 0 <= p < |k.procs| && p != k.init ==>
          k.procs[p].state == Unused && k.procs[p].parent == None && !k.procs[p].stack)
    && var i := k.procs[k.init];
       && i.state == Runnable && i.parent == None && i.chan == None && i.stack
       && i.ctime <= k.ticks && i.rtime == i.stime == i.retime == 0
  }

}
