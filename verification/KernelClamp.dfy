/** When `waitx` needs its clamp: a process that another CPU creates while CPU 0 is in the timer interrupt, that is
    running when CPU 0 accounts for the tick, and that exits before the next one. */
module KernelClamp {
  import opened ProcTypes
  import opened ProcTable
  import opened Kernel
  import opened KernelSafety
  import opened KernelRuns
  import opened KernelTime
  import opened KernelWitness

  /** `n` CPUs, of which CPU 0 is idle and CPU 1 as given, and `m` slots, round robin: slot 0 is init. */
  ghost predicate Small(s: State, n: nat, m: nat, cpu: Cpu) {
    && |s.core.procs| == |s.core.tasks| == m >= 2 && s.core.init == 0 && s.core.policy == 0
    && |s.cpus| == n >= 2 && s.cpus[0].ctl == Idle && s.cpus[1] == cpu
  }

  ghost function Boot(n: nat, m: nat): State
    requires m >= 2
  {
    var unused := Proc(Unused, 0, None, None, false, false, 0, 0, 0, 0, 0, 0, 0);
    var init := unused.(state := Runnable, stack := true);
    State(Core(seq(m, i => if i == 0 then init else unused),
               seq(m, i => Task(Ordinary, true)), None, 0, 0, 1, 2, 0, Still, []),
          seq(n, i => Cpu(None, Idle, Leave)))
  }

  /** CPU 1 begins to schedule. */
  lemma Booted(n: nat, m: nat) returns (s: State)
    requires n >= 2 && m >= 2
    ensures Ready(None, s, 1) && s.core == Boot(n, m).core.(lock := Some(1))
    ensures s.cpus == Boot(n, m).cpus[1 := Cpu(None, Scan(0), Leave)]
  {
    s := Boot(n, m);
    assert Initial(s);
    ReachInitial(s);
    s := ReachNext(None, s, On(1, SchedAcquire));
  }

  /** CPU 1 runs init. */
  lemma InitRuns(n: nat, m: nat) returns (s: State)
    requires n >= 2 && m >= 2
    ensures Runs(None, s, 1, 0) && Small(s, n, m, Cpu(Some(0), Run(0), Scan(1))) && s.core.clock == Still
    ensures s.core.procs[0].state == Running && s.core.procs[1].state == Unused
  {
    s := Booted(n, m);
    s := ScanAt(None, s, 1, 0);
  }

  /** CPU 0 has counted a tick; CPU 1 has forked a child since. */
  lemma ChildForked(n: nat, m: nat) returns (s: State)
    requires n >= 2 && m >= 2
    ensures Runs(None, s, 1, 0) && Small(s, n, m, Cpu(Some(0), Run(0), Scan(1))) && s.core.clock == Ticked
    ensures var p := s.core.procs[1]; p.state == Runnable && p.ctime == s.core.ticks && p.rtime == 0
    ensures s.core.tasks[1].place == Ordinary
  {
    s := InitRuns(n, m);
    s := ReachNext(None, s, Tick);
    s := ForkAt(None, s, 1, 0, 1);
  }

  /** CPU 0 has woken the sleepers on the clock; init has yielded. */
  lemma InitYielded(n: nat, m: nat) returns (s: State)
    requires n >= 2 && m >= 2
    ensures Ready(None, s, 1) && Small(s, n, m, Cpu(None, Scan(1), Scan(1))) && s.core.clock == Woken
    ensures var p := s.core.procs[1]; p.state == Runnable && p.ctime == s.core.ticks && p.rtime == 0
    ensures s.core.tasks[1].place == Ordinary
  {
    s := ChildForked(n, m);
    s := ReachNext(None, s, WakeTicks);
    s := GiveUpAt(None, s, 1, 0, Yield);
  }

  /** CPU 1 runs the child when CPU 0 accounts for the tick. */
  lemma ChildCharged(n: nat, m: nat) returns (s: State)
    requires n >= 2 && m >= 2
    ensures Runs(None, s, 1, 1) && |s.cpus| == n && |s.core.procs| == m && s.core.init == 0
    ensures s.core.procs[1].ctime == s.core.ticks && s.core.procs[1].rtime == 1
  {
    s := InitYielded(n, m);
    s := ScanAt(None, s, 1, 1);
    s := ReachNext(None, s, AccountAll);
  }

  lemma ExitKeepsRtime(procs: seq<Proc>, cur: nat, init: nat, ticks: nat)
    requires cur < |procs|
    ensures Exited(procs, cur, init, ticks)[cur].rtime == procs[cur].rtime
  {
  }

  /** A run of `n` CPUs and `m` slots leads to a zombie in slot `z` of `s` whose waiting time is negative before the
      clamp. */
  ghost predicate Clamped(n: nat, m: nat, s: State, z: nat) {
    && Reached(None, s) && |s.cpus| == n && |s.core.procs| == m
    && z < |s.core.procs| && s.core.procs[z].state == Zombie && RawWait(s.core.procs[z]) < 0
  }

  /** The child exits at age 0 with a run time of 1. */
  lemma ClampActs(n: nat, m: nat) returns (s: State)
    requires n >= 2 && m >= 2
    ensures Clamped(n, m, s, 1) && s.core.procs[1].etime == s.core.procs[1].ctime && s.core.procs[1].rtime == 1
  {
    s := ChildCharged(n, m);
    ExitedTimes(s.core.procs, 1, 0, s.core.ticks, 1);
    ExitKeepsRtime(s.core.procs, 1, 0, s.core.ticks);
    s := GiveUpAt(None, s, 1, 1, Exit);
  }

  /** The clamp of `waitx` acts in some run of `n` CPUs, on a table of any size from two on, exactly when there is more
      than one CPU. */
  lemma ClampNeedsTwoCpus(n: nat, m: nat)
    requires n >= 1 && m >= 2
    ensures (exists s, z: nat :: Clamped(n, m, s, z)) <==> n >= 2
  {
    if n >= 2 {
      var s := ClampActs(n, m);
    } else {
      forall s, z: nat
        ensures !Clamped(n, m, s, z)
      {
        if Clamped(n, m, s, z) {
          var states, steps, lo: nat :| Ends(None, states, steps, lo, s);
          SameCpus(states, steps, |steps|);
          WaitxAddsUp(states, steps, |steps|, z);
        }
      }
    }
  }
}
