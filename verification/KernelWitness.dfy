/** Building blocks for particular runs of the kernel machine: whole system calls and scheduler passes of one CPU,
    each as the change it makes to the state. */
module KernelWitness {
  import opened ProcTypes
  import opened ProcTable
  import opened Kernel
  import opened KernelSafety
  import opened KernelRuns
  import opened KernelFcfs

  /** A run that ends in `s`; if `first` is given, the policy is FCFS from state `lo`, which is `first`, on. */
  ghost predicate Ends(first: Option<State>, states: seq<State>, steps: seq<Step>, lo: nat, s: State) {
    && IsRun(states, steps) && states[|steps|] == s
    && (first.Some? ==> lo <= |steps| && states[lo] == first.value && FcfsFrom(states, lo, |steps|))
  }

  ghost predicate Reached(first: Option<State>, s: State) {
    exists states, steps, lo: nat :: Ends(first, states, steps, lo, s)
  }

  lemma ReachInitial(s: State)
    requires Initial(s)
    ensures Reached(None, s)
  {
    assert Ends(None, [s], [], 0, s);
  }

  /** The FCFS part begins here. */
  lemma ReachFirst(s: State)
    requires Reached(None, s) && s.core.policy == 1
    ensures Reached(Some(s), s)
  {
    var states, steps, lo: nat :| Ends(None, states, steps, lo, s);
    assert Ends(Some(s), states, steps, |steps|, s);
  }

  lemma ReachNext(first: Option<State>, s: State, step: Step) returns (s': State)
    requires Reached(first, s) && s.WellFormed() && Enabled(s, step)
    requires first.Some? ==> Next(s, step).core.policy == 1
    ensures s' == Next(s, step) && Reached(first, s') && s'.WellFormed()
  {
    s' := Next(s, step);
    var states, steps, lo: nat :| Ends(first, states, steps, lo, s);
    var states', steps' := states + [s'], steps + [step];
    forall i | 0 <= i < |steps'|
      ensures StepAt(states', steps', i)
    {
      if i < |steps| {
        assert StepAt(states, steps, i);
      }
    }
    assert Ends(first, states', steps', lo, s');
    RunInv(states', steps', |steps'|);
  }

  // ---------- One CPU ----------

  /** The policy is FCFS if the run has reached its FCFS part. */
  predicate Keeps(first: Option<State>, s: State) {
    first.Some? ==> s.core.policy == 1
  }

  /** CPU `c` is free to step. */
  ghost predicate Ready(first: Option<State>, s: State, c: nat) {
    && Reached(first, s) && s.WellFormed() && Keeps(first, s)
    && c < |s.cpus| && (c == 0 ==> s.core.clock == Still)
  }

  /** CPU `c` runs process `p` outside any critical section. */
  ghost predicate Runs(first: Option<State>, s: State, c: nat, p: nat) {
    && Ready(first, s, c) && s.cpus[c].ctl == Run(p) && s.core.lock == None
    && s.core.tasks[p].place == Ordinary
  }

  lemma AcquireAt(first: Option<State>, s: State, c: nat, p: nat, op: Op) returns (s': State)
    requires Ready(first, s, c) && s.cpus[c].ctl == Run(p) && s.core.lock == None && MayStart(s.core, p, op)
    ensures Ready(first, s', c) && s'.core == s.core.(lock := Some(c))
    ensures s'.cpus == s.cpus[c := s.cpus[c].(ctl := Locked(p, op))]
  {
    s' := ReachNext(first, s, On(c, Acquire(op)));
  }

  lemma PerformKeeps(k: Core, p: nat, op: Op)
    requires k.WellFormed() && p < |k.procs|
    ensures Performed(k, p, op).policy == k.policy && Performed(k, p, op).clock == k.clock
  {
  }

  lemma PerformAt(first: Option<State>, s: State, c: nat, p: nat, op: Op) returns (s': State)
    requires Ready(first, s, c) && s.cpus[c].ctl == Locked(p, op)
    ensures Ready(first, s', c) && s'.core == Performed(s.core, p, op)
    ensures s'.cpus == s.cpus[c := s.cpus[c].(ctl := if GivesUpCpu(s.core, p, op) then Switching(p) else Run(p))]
  {
    PerformKeeps(s.core, p, op);
    s' := ReachNext(first, s, On(c, Perform));
  }

  lemma OneFirstUnused(procs: seq<Proc>, e: nat, f: nat)
    requires FirstUnused(procs, e) && FirstUnused(procs, f)
    ensures e == f
  {
  }

  lemma AllocAt(first: Option<State>, s: State, c: nat, p: nat, e: nat) returns (s': State)
    requires Runs(first, s, c, p) && FirstUnused(s.core.procs, e)
    ensures Ready(first, s', c) && s'.cpus == s.cpus
    ensures s'.core == s.core.(procs := s.core.procs[e := s.core.procs[e].(state := Embryo, pid := s.core.nextPid)],
                               tasks := s.core.tasks[p := s.core.tasks[p].(place := Forking(e, 0))],
                               nextPid := s.core.nextPid + 1)
  {
    s' := AcquireAt(first, s, c, p, Alloc);
    forall f: nat | FirstUnused(s'.core.procs, f)
      ensures f == e
    {
      OneFirstUnused(s.core.procs, e, f);
    }
    s' := PerformAt(first, s', c, p, Alloc);
    assert s'.cpus == s.cpus;
  }

  function Born(k: Core, e: nat): Proc
    requires e < |k.procs|
  {
    k.procs[e].(stack := true, ctime := k.ticks, etime := 0, rtime := 0, retime := 0, stime := 0,
                tickets := 10, originalTickets := 10)
  }

  lemma BirthAt(first: Option<State>, s: State, c: nat, p: nat, e: nat) returns (s': State)
    requires Ready(first, s, c) && s.cpus[c].ctl == Run(p) && s.core.tasks[p].place == Forking(e, 0)
    ensures Ready(first, s', c) && s'.cpus == s.cpus
    ensures s'.core == s.core.(procs := s.core.procs[e := Born(s.core, e)],
                               tasks := s.core.tasks[e := Task(Ordinary, true)]
                                                    [p := s.core.tasks[p].(place := Forking(e, 1))])
  {
    s' := ReachNext(first, s, On(c, InitEmbryo));
    assert s'.cpus == s.cpus;
  }

  lemma EmbryoAt(first: Option<State>, s: State, c: nat, p: nat, e: nat) returns (s': State)
    requires Runs(first, s, c, p) && p != e && FirstUnused(s.core.procs, e)
    ensures Ready(first, s', c) && s'.cpus == s.cpus
    ensures s'.core == s.core.(procs := s.core.procs[e := Born(s.core, e).(state := Embryo, pid := s.core.nextPid)],
                               tasks := s.core.tasks[e := Task(Ordinary, true)]
                                                    [p := s.core.tasks[p].(place := Forking(e, 1))],
                               nextPid := s.core.nextPid + 1)
  {
    s' := AllocAt(first, s, c, p, e);
    s' := BirthAt(first, s', c, p, e);
    assert s'.core.procs == s.core.procs[e := Born(s.core, e).(state := Embryo, pid := s.core.nextPid)];
    assert s'.core.tasks == s.core.tasks[e := Task(Ordinary, true)][p := s.core.tasks[p].(place := Forking(e, 1))];
  }

  function Copied(k: Core, p: nat, child: Proc): Proc
    requires p < |k.procs|
  {
    var t := if k.procs[p].tickets > 0 then k.procs[p].tickets else 1;
    child.(parent := Some(p), tickets := t, originalTickets := t)
  }

  lemma CopyAt(first: Option<State>, s: State, c: nat, p: nat, e: nat) returns (s': State)
    requires Ready(first, s, c) && s.cpus[c].ctl == Run(p) && s.core.tasks[p].place == Forking(e, 1)
    ensures Ready(first, s', c) && s'.cpus == s.cpus
    ensures s'.core == s.core.(procs := s.core.procs[e := Copied(s.core, p, s.core.procs[e])],
                               tasks := s.core.tasks[p := s.core.tasks[p].(place := Forking(e, 2))])
  {
    s' := ReachNext(first, s, On(c, CopyParent));
    assert s'.cpus == s.cpus;
  }

  lemma PublishAt(first: Option<State>, s: State, c: nat, p: nat, e: nat) returns (s': State)
    requires Ready(first, s, c) && s.cpus[c].ctl == Run(p) && s.core.tasks[p].place == Forking(e, 2)
    requires s.core.lock == None
    ensures Ready(first, s', c) && s'.cpus == s.cpus
    ensures s'.core == s.core.(procs := s.core.procs[e := s.core.procs[e].(state := Runnable)],
                               tasks := s.core.tasks[p := s.core.tasks[p].(place := Ordinary)])
  {
    s' := AcquireAt(first, s, c, p, Publish);
    s' := PerformAt(first, s', c, p, Publish);
    assert s'.cpus == s.cpus;
  }

  function Child(k: Core, p: nat, e: nat): Proc
    requires p < |k.procs| && e < |k.procs|
  {
    Copied(k, p, Born(k, e)).(state := Runnable, pid := k.nextPid)
  }

  /** A whole `fork` into slot `e`. */
  lemma ForkAt(first: Option<State>, s: State, c: nat, p: nat, e: nat) returns (s': State)
    requires Runs(first, s, c, p) && p != e && FirstUnused(s.core.procs, e)
    ensures Runs(first, s', c, p) && s'.cpus == s.cpus
    ensures s'.core == s.core.(procs := s.core.procs[e := Child(s.core, p, e)],
                               tasks := s.core.tasks[e := Task(Ordinary, true)],
                               nextPid := s.core.nextPid + 1)
  {
    s' := EmbryoAt(first, s, c, p, e);
    s' := CopyAt(first, s', c, p, e);
    s' := PublishAt(first, s', c, p, e);
    assert s'.core.procs == s.core.procs[e := Child(s.core, p, e)];
    assert s'.core.tasks == s.core.tasks[e := Task(Ordinary, true)];
  }

  /** A critical section that ends in `sched`. */
  lemma GiveUpAt(first: Option<State>, s: State, c: nat, p: nat, op: Op) returns (s': State)
    requires Runs(first, s, c, p) && MayStart(s.core, p, op) && (op.Yield? || op.Sleep? || op.Exit?)
    ensures Ready(first, s', c) && s'.core == Performed(s.core.(lock := Some(c)), p, op)
    ensures s'.cpus == s.cpus[c := Cpu(None, s.cpus[c].back, s.cpus[c].back)]
  {
    s' := AcquireAt(first, s, c, p, op);
    s' := PerformAt(first, s', c, p, op);
    s' := ReachNext(first, s', On(c, SwitchAway));
    assert s'.cpus == s.cpus[c := Cpu(None, s.cpus[c].back, s.cpus[c].back)];
  }

  /** The scan skips to slot `i`. */
  lemma {:induction false} SkipAt(first: Option<State>, s: State, c: nat, i: nat) returns (s': State)
    requires Ready(first, s, c) && s.cpus[c].ctl.Scan? && s.cpus[c].ctl.pos <= i <= |s.core.procs|
    requires forall j :: s.cpus[c].ctl.pos <= j < i ==> s.core.procs[j].state != Runnable
    ensures Ready(first, s', c) && s'.core == s.core && s'.cpus == s.cpus[c := s.cpus[c].(ctl := Scan(i))]
    decreases i - s.cpus[c].ctl.pos
  {
    s' := s;
    if s.cpus[c].ctl.pos < i {
      s' := ReachNext(first, s, On(c, ScanSkip));
      s' := SkipAt(first, s', c, i);
    }
    assert s'.cpus == s.cpus[c := s.cpus[c].(ctl := Scan(i))];
  }

  lemma EnterAt(first: Option<State>, s: State, c: nat, i: nat) returns (s': State)
    requires Ready(first, s, c) && s.cpus[c].ctl == Dispatching(i) && s.core.tasks[i].place == Ordinary
    ensures Runs(first, s', c, i) && s'.cpus == s.cpus[c := s.cpus[c].(ctl := Run(i))]
    ensures s'.core == s.core.(procs := s.core.procs[i := s.core.procs[i].(state := Running)], lock := None)
  {
    s' := ReachNext(first, s, On(c, Enter));
    s' := ReachNext(first, s', On(c, Resume));
    assert s'.cpus == s.cpus[c := s.cpus[c].(ctl := Run(i))];
  }

  /** The scan dispatches slot `i`. */
  lemma ScanAt(first: Option<State>, s: State, c: nat, i: nat) returns (s': State)
    requires Ready(first, s, c) && s.cpus[c].ctl.Scan? && s.cpus[c].ctl.pos <= i < |s.core.procs|
    requires forall j :: s.cpus[c].ctl.pos <= j < i ==> s.core.procs[j].state != Runnable
    requires s.core.procs[i].state == Runnable && s.core.tasks[i].place == Ordinary
    ensures Runs(first, s', c, i) && s'.cpus == s.cpus[c := Cpu(Some(i), Run(i), Scan(i + 1))]
    ensures s'.core == s.core.(procs := s.core.procs[i := s.core.procs[i].(state := Running)], lock := None)
  {
    s' := SkipAt(first, s, c, i);
    s' := ReachNext(first, s', On(c, ScanPick));
    s' := EnterAt(first, s', c, i);
    assert s'.cpus == s.cpus[c := Cpu(Some(i), Run(i), Scan(i + 1))];
  }

  /** The scan finds nobody else, and the scheduler starts over. */
  lemma ScanOutAt(first: Option<State>, s: State, c: nat) returns (s': State)
    requires Ready(first, s, c) && s.cpus[c].ctl.Scan?
    requires forall j :: s.cpus[c].ctl.pos <= j < |s.core.procs| ==> s.core.procs[j].state != Runnable
    ensures Ready(first, s', c) && s'.core == s.core && s'.cpus == s.cpus[c := s.cpus[c].(ctl := Leave)]
  {
    s' := SkipAt(first, s, c, |s.core.procs|);
    s' := ReachNext(first, s', On(c, ScanEnd));
    assert s'.cpus == s.cpus[c := s.cpus[c].(ctl := Leave)];
  }

  function Begins(policy: int): Control {
    if policy == 1 then Choose(false) else if policy == 2 then Choose(true) else Scan(0)
  }

  lemma RestartAt(first: Option<State>, s: State, c: nat) returns (s': State)
    requires Ready(first, s, c) && s.cpus[c].ctl == Leave
    ensures Ready(first, s', c) && s'.core == s.core.(lock := Some(c))
    ensures s'.cpus == s.cpus[c := s.cpus[c].(ctl := Begins(s.core.policy))]
  {
    s' := ReachNext(first, s, On(c, SchedRelease));
    s' := ReachNext(first, s', On(c, SchedAcquire));
    assert s'.cpus == s.cpus[c := s.cpus[c].(ctl := Begins(s.core.policy))];
  }

  /** FCFS or the lottery dispatches slot `i`. */
  lemma ChooseAt(first: Option<State>, s: State, c: nat, i: nat) returns (s': State)
    requires Ready(first, s, c) && s.cpus[c].ctl.Choose? && i < |s.core.procs| && s.core.procs[i].state == Runnable
    requires Chosen(s.core, s.cpus[c].ctl.lottery, i) && s.core.tasks[i].place == Ordinary
    ensures Runs(first, s', c, i) && s'.cpus == s.cpus[c := Cpu(Some(i), Run(i), Leave)]
    ensures s'.core == s.core.(procs := s.core.procs[i := s.core.procs[i].(state := Running)], lock := None,
                               seed := Drawn(s.core, s.cpus[c].ctl.lottery))
  {
    s' := ReachNext(first, s, On(c, ChoosePick(i)));
    s' := EnterAt(first, s', c, i);
    assert s'.cpus == s.cpus[c := Cpu(Some(i), Run(i), Leave)];
  }

  lemma SetPolicyAt(first: Option<State>, s: State, c: nat, p: nat, policy: int) returns (s': State)
    requires Runs(first, s, c, p) && 0 <= policy <= 2 && (first.Some? ==> policy == 1)
    ensures Runs(first, s', c, p) && s' == s.(core := s.core.(policy := policy))
  {
    s' := ReachNext(first, s, On(c, SetPolicy(policy)));
    assert s'.cpus == s.cpus;
  }

  /** A whole timer interrupt on the one CPU that runs. */
  lemma TickAt(first: Option<State>, s: State, p: nat) returns (s': State)
    requires Runs(first, s, 0, p)
    ensures Runs(first, s', 0, p) && s'.cpus == s.cpus
    ensures s'.core == s.core.(procs := Account(Wakeup(s.core.procs, OnAddr(TICKS))), ticks := s.core.ticks + 1)
  {
    s' := ReachNext(first, s, Tick);
    s' := ReachNext(first, s', WakeTicks);
    s' := ReachNext(first, s', AccountAll);
  }
}
