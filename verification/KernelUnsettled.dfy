/** Why FCFS needs a settled scheduler: runs of one CPU in which processes that never slept or yielded exit out of
    order under FCFS, because of a round-robin scan or a lottery draw from before. */
module KernelUnsettled {
  import opened ProcTypes
  import opened ProcTable
  import opened Kernel
  import opened KernelSafety
  import opened KernelRuns
  import opened KernelFcfs
  import opened KernelWitness
  import Lcg
  import Lottery

  /** Under FCFS all the way from `first` to `s`, two processes that never slept or yielded exited in the wrong order.
      */
  ghost predicate Disordered(first: State, s: State) {
    && Reached(Some(first), s) && |first.cpus| == 1
    && exists i, j :: |first.core.gone| <= i < j < |s.core.gone|
                      && s.core.gone[i].clean && s.core.gone[j].clean && s.core.gone[j].ctime < s.core.gone[i].ctime
  }

  /** One CPU and n slots, slot 0 being init, of which the first three are used. */
  ghost predicate Small(s: State, n: nat, cpu: Cpu) {
    && |s.core.procs| == |s.core.tasks| == n >= 3 && s.core.init == 0
    && s.cpus == [cpu] && s.core.clock == Still
    && forall j :: 3 <= j < n ==> s.core.procs[j].state == Unused && s.core.procs[j].parent == None
  }

  ghost function Boot(n: nat): State
    requires n >= 3
  {
    var unused := Proc(Unused, 0, None, None, false, false, 0, 0, 0, 0, 0, 0, 0);
    var init := unused.(state := Runnable, stack := true, tickets := 10, originalTickets := 10);
    State(Core(seq(n, i => if i == 0 then init else unused),
               seq(n, i => Task(Ordinary, true)), None, 0, 0, 1, 2, 0, Still, []),
          [Cpu(None, Idle, Leave)])
  }

  predicate Is(s: State, i: nat, state: ProcState, ctime: nat, clean: bool)
    requires i < |s.core.procs| && i < |s.core.tasks|
  {
    s.core.procs[i].state == state && s.core.procs[i].ctime == ctime && s.core.tasks[i] == Task(Ordinary, clean)
  }

  // ---------- A leftover scan ----------

  /** The scheduler begins. */
  lemma Booted(n: nat) returns (s: State)
    requires n >= 3
    ensures Ready(None, s, 0) && s.cpus == [Cpu(None, Scan(0), Leave)] && s.core == Boot(n).core.(lock := Some(0))
  {
    s := Boot(n);
    assert Initial(s);
    ReachInitial(s);
    s := ReachNext(None, s, On(0, SchedAcquire));
  }

  /** init runs. */
  lemma InitRuns(n: nat) returns (s: State)
    requires n >= 3
    ensures Runs(None, s, 0, 0) && Small(s, n, Cpu(Some(0), Run(0), Scan(1))) && s.core.policy == 0 && s.core.ticks == 0
    ensures Is(s, 0, Running, 0, true) && Is(s, 1, Unused, 0, true) && Is(s, 2, Unused, 0, true)
    ensures s.core.procs[1].parent == s.core.procs[2].parent == None && s.core.procs[0].tickets == 10
    ensures s.core.seed == 1
  {
    s := Booted(n);
    s := ScanAt(None, s, 0, 0);
  }

  /** It has forked a child and yielded. */
  lemma FirstChild(n: nat) returns (s: State)
    requires n >= 3
    ensures Ready(None, s, 0) && Small(s, n, Cpu(None, Scan(1), Scan(1))) && s.core.policy == 0 && s.core.ticks == 0
    ensures Is(s, 0, Runnable, 0, false) && Is(s, 1, Runnable, 0, true) && Is(s, 2, Unused, 0, true)
    ensures s.core.procs[1].parent == Some(0) && s.core.procs[2].parent == None
  {
    s := InitRuns(n);
    s := ForkAt(None, s, 0, 0, 1);
    s := GiveUpAt(None, s, 0, 0, Yield);
  }

  /** The child has exited. */
  lemma FirstExit(n: nat) returns (s: State)
    requires n >= 3
    ensures Ready(None, s, 0) && Small(s, n, Cpu(None, Scan(2), Scan(2))) && s.core.policy == 0 && s.core.ticks == 0
    ensures Is(s, 0, Runnable, 0, false) && Is(s, 1, Zombie, 0, true) && Is(s, 2, Unused, 0, true)
    ensures s.core.procs[1].parent == Some(0)
  {
    s := FirstChild(n);
    s := ScanAt(None, s, 0, 1);
    s := GiveUpAt(None, s, 0, 1, Exit);
  }

  /** init runs again and has forked a second child, past the zombie of the first. */
  lemma SecondChild(n: nat) returns (s: State)
    requires n >= 3
    ensures Runs(None, s, 0, 0) && Small(s, n, Cpu(Some(0), Run(0), Scan(1))) && s.core.policy == 0 && s.core.ticks == 0
    ensures Is(s, 0, Running, 0, false) && Is(s, 1, Zombie, 0, true) && Is(s, 2, Runnable, 0, true)
    ensures s.core.procs[1].parent == Some(0)
  {
    s := FirstExit(n);
    s := ScanOutAt(None, s, 0);
    s := RestartAt(None, s, 0);
    s := ScanAt(None, s, 0, 0);
    s := ForkAt(None, s, 0, 0, 2);
  }

  /** It has waited for the first one. */
  lemma FirstReaped(n: nat) returns (s: State)
    requires n >= 3
    ensures Runs(None, s, 0, 0) && Small(s, n, Cpu(Some(0), Run(0), Scan(1))) && s.core.policy == 0 && s.core.ticks == 0
    ensures Is(s, 0, Running, 0, false) && Is(s, 1, Unused, 0, true) && Is(s, 2, Runnable, 0, true)
  {
    s := SecondChild(n);
    s := AcquireAt(None, s, 0, 0, Wait);
    assert FirstZombieChild(s.core.procs, 0, 1) && !FirstZombieChild(s.core.procs, 0, 0)
           && !FirstZombieChild(s.core.procs, 0, 2);
    s := PerformAt(None, s, 0, 0, Wait);
  }

  /** It has chosen FCFS, and one tick later forked a third child into the first slot. */
  lemma ThirdChild(n: nat) returns (s: State)
    requires n >= 3
    ensures Runs(None, s, 0, 0) && Small(s, n, Cpu(Some(0), Run(0), Scan(1))) && s.core.policy == 1 && s.core.ticks == 1
    ensures Is(s, 0, Running, 0, false) && Is(s, 1, Runnable, 1, true) && Is(s, 2, Runnable, 0, true)
  {
    s := FirstReaped(n);
    s := SetPolicyAt(None, s, 0, 0, 1);
    s := TickAt(None, s, 0);
    s := ForkAt(None, s, 0, 0, 1);
  }

  /** The scan dispatches the process it stands at, which exits. */
  lemma NextExits(first: Option<State>, s: State, n: nat, i: nat, ctime: nat) returns (s': State)
    requires Ready(first, s, 0) && 1 <= i < 3 && Small(s, n, Cpu(None, Scan(i), Scan(i)))
    requires Is(s, i, Runnable, ctime, true)
    ensures Ready(first, s', 0) && Small(s', n, Cpu(None, Scan(i + 1), Scan(i + 1)))
    ensures s'.core.gone == s.core.gone + [Gone(ctime, true)]
    ensures forall j, t :: 0 <= j < 3 && j != i && Is(s, j, Runnable, t, true) ==> Is(s', j, Runnable, t, true)
  {
    s' := ScanAt(first, s, 0, i);
    s' := GiveUpAt(first, s', 0, i, Exit);
  }

  /** Once init is out of the way, the scan goes on in the order of the slots. */
  lemma ScanGoesOn(first: Option<State>, s: State, n: nat) returns (s': State)
    requires Ready(first, s, 0) && Small(s, n, Cpu(None, Scan(1), Scan(1)))
    requires Is(s, 1, Runnable, 1, true) && Is(s, 2, Runnable, 0, true)
    ensures Reached(first, s') && s'.core.gone == s.core.gone + [Gone(1, true), Gone(0, true)]
  {
    s' := NextExits(first, s, n, 1, 1);
    s' := NextExits(first, s', n, 2, 0);
  }

  /** A scan the CPU is to come back to: the process on the CPU is in nobody's way, and the order still fails. */
  lemma LeftoverScanFails(n: nat) returns (first: State, s: State)
    requires n >= 3
    ensures Disordered(first, s) && |first.core.procs| == n
    ensures first.WellFormed() && first.cpus[0].ctl.Run? && first.cpus[0].back.Scan?
    ensures OnOldest(first.core, first.cpus[0])
  {
    first := ThirdChild(n);
    ReachFirst(first);
    s := GiveUpAt(Some(first), first, 0, 0, Sleep(5));
    s := ScanGoesOn(Some(first), s, n);
    assert s.core.gone[|first.core.gone|] == Gone(1, true) && s.core.gone[|first.core.gone| + 1] == Gone(0, true);
  }

  /** A scan the CPU is in. */
  lemma ScanUnderWayFails(n: nat) returns (first: State, s: State)
    requires n >= 3
    ensures Disordered(first, s) && |first.core.procs| == n
    ensures first.WellFormed() && first.cpus[0].ctl.Scan? && OnOldest(first.core, first.cpus[0])
  {
    first := ThirdChild(n);
    first := GiveUpAt(None, first, 0, 0, Sleep(5));
    ReachFirst(first);
    s := ScanGoesOn(Some(first), first, n);
    assert s.core.gone[|first.core.gone|] == Gone(1, true) && s.core.gone[|first.core.gone| + 1] == Gone(0, true);
  }

  // ---------- A leftover draw ----------

  lemma {:induction false} PrefixOfThree(procs: seq<Proc>, k: nat)
    requires 3 <= k <= |procs| && forall j :: 3 <= j < |procs| ==> procs[j].state == Unused
    ensures Lottery.Prefix(procs, k) == Lottery.Prefix(procs, 3)
  {
    if k > 3 {
      PrefixOfThree(procs, k - 1);
    }
  }

  lemma ThreeTickets(procs: seq<Proc>)
    requires |procs| >= 3 && forall j :: 3 <= j < |procs| ==> procs[j].state == Unused
    ensures Lottery.Prefix(procs, 0) == 0 && Lottery.Prefix(procs, 1) == Lottery.Weight(procs[0])
    ensures Lottery.Prefix(procs, 2) == Lottery.Weight(procs[0]) + Lottery.Weight(procs[1])
    ensures Lottery.Prefix(procs, 3) == Lottery.Tickets(procs)
            == Lottery.Weight(procs[0]) + Lottery.Weight(procs[1]) + Lottery.Weight(procs[2])
  {
    PrefixOfThree(procs, |procs|);
    assert Lottery.Prefix(procs, 2) == Lottery.Prefix(procs, 1) + Lottery.Weight(procs[1]);
    assert Lottery.Prefix(procs, 3) == Lottery.Prefix(procs, 2) + Lottery.Weight(procs[2]);
  }

  /** init has chosen the lottery and won the first draw. */
  lemma InitDrawn(n: nat) returns (s: State)
    requires n >= 3
    ensures Runs(None, s, 0, 0) && Small(s, n, Cpu(Some(0), Run(0), Leave)) && s.core.policy == 2 && s.core.ticks == 0
    ensures Is(s, 0, Running, 0, false) && Is(s, 1, Unused, 0, true) && Is(s, 2, Unused, 0, true)
    ensures s.core.seed == 1015568748 && s.core.procs[0].tickets == 10
  {
    s := InitRuns(n);
    s := SetPolicyAt(None, s, 0, 0, 2);
    s := GiveUpAt(None, s, 0, 0, Yield);
    s := ScanOutAt(None, s, 0);
    s := RestartAt(None, s, 0);
    ThreeTickets(s.core.procs);
    assert Lcg.Step(1) == 1015568748;
    Lottery.WinsIsBlock(s.core.procs, 8, 0);
    s := ChooseAt(None, s, 0, 0);
  }

  /** It has forked a child and doubled its own tickets. */
  lemma OlderForked(n: nat) returns (s: State)
    requires n >= 3
    ensures Runs(None, s, 0, 0) && Small(s, n, Cpu(Some(0), Run(0), Leave)) && s.core.policy == 2 && s.core.ticks == 0
    ensures Is(s, 0, Running, 0, false) && Is(s, 1, Runnable, 0, true) && Is(s, 2, Unused, 0, true)
    ensures s.core.seed == 1015568748 && s.core.procs[0].tickets == 20 && s.core.procs[1].tickets == 10
  {
    s := InitDrawn(n);
    s := ForkAt(None, s, 0, 0, 1);
    s := AcquireAt(None, s, 0, 0, SetTickets(20));
    s := PerformAt(None, s, 0, 0, SetTickets(20));
  }

  /** A tick later, which it spent under FCFS so as not to yield, it has forked another. */
  lemma TwoChildren(n: nat) returns (s: State)
    requires n >= 3
    ensures Runs(None, s, 0, 0) && Small(s, n, Cpu(Some(0), Run(0), Leave)) && s.core.policy == 2 && s.core.ticks == 1
    ensures Is(s, 0, Running, 0, false) && Is(s, 1, Runnable, 0, true) && Is(s, 2, Runnable, 1, true)
    ensures s.core.seed == 1015568748 && s.core.procs[1].tickets == 10 && s.core.procs[2].tickets == 20
  {
    s := OlderForked(n);
    s := SetPolicyAt(None, s, 0, 0, 1);
    s := TickAt(None, s, 0);
    s := ForkAt(None, s, 0, 0, 2);
    s := SetPolicyAt(None, s, 0, 0, 2);
  }

  /** The second draw is due. */
  lemma InitAsleep(n: nat) returns (s: State)
    requires n >= 3
    ensures Ready(None, s, 0) && Small(s, n, Cpu(None, Choose(true), Leave)) && s.core.policy == 2
    ensures s.core.procs[0].state == Sleeping && s.core.procs[0].chan == Some(OnAddr(5))
    ensures Is(s, 1, Runnable, 0, true) && Is(s, 2, Runnable, 1, true)
    ensures s.core.seed == 1015568748 && s.core.procs[1].tickets == 10 && s.core.procs[2].tickets == 20
  {
    s := TwoChildren(n);
    s := GiveUpAt(None, s, 0, 0, Sleep(5));
    s := RestartAt(None, s, 0);
  }

  /** The younger wins it. */
  lemma YoungerDrawn(n: nat) returns (s: State)
    requires n >= 3
    ensures Runs(None, s, 0, 2) && Small(s, n, Cpu(Some(2), Run(2), Leave)) && s.core.policy == 2
    ensures s.core.procs[0].state == Sleeping && s.core.procs[0].chan == Some(OnAddr(5))
    ensures Is(s, 1, Runnable, 0, true) && Is(s, 2, Running, 1, true)
  {
    s := InitAsleep(n);
    ThreeTickets(s.core.procs);
    assert Lcg.Step(1015568748) == 1586005467;
    Lottery.WinsIsBlock(s.core.procs, 27, 2);
    s := ChooseAt(None, s, 0, 2);
  }

  /** The younger has exited under FCFS. */
  lemma YoungerExits(first: State, n: nat) returns (s: State)
    requires Runs(Some(first), first, 0, 2) && Small(first, n, Cpu(Some(2), Run(2), Leave)) && first.core.policy == 1
    requires first.core.procs[0].state == Sleeping && first.core.procs[0].chan == Some(OnAddr(5))
    requires Is(first, 1, Runnable, 0, true) && Is(first, 2, Running, 1, true)
    ensures Ready(Some(first), s, 0) && Small(s, n, Cpu(None, Leave, Leave)) && s.core.policy == 1
    ensures s.core.gone == first.core.gone + [Gone(1, true)]
    ensures s.core.procs[0].state == Sleeping && Is(s, 1, Runnable, 0, true) && s.core.procs[2].state == Zombie
  {
    s := GiveUpAt(Some(first), first, 0, 2, Exit);
  }

  /** Then the older. */
  lemma OlderExits(first: State, s: State, n: nat) returns (s': State)
    requires Ready(Some(first), s, 0) && Small(s, n, Cpu(None, Leave, Leave)) && s.core.policy == 1
    requires s.core.procs[0].state == Sleeping && Is(s, 1, Runnable, 0, true) && s.core.procs[2].state == Zombie
    ensures Reached(Some(first), s') && s'.core.gone == s.core.gone + [Gone(0, true)]
  {
    s' := RestartAt(Some(first), s, 0);
    s' := ChooseAt(Some(first), s', 0, 1);
    s' := GiveUpAt(Some(first), s', 0, 1, Exit);
  }

  /** A process the lottery put on the CPU, younger than one that waits: the CPU comes back to no scan and no draw, and
      the order still fails. */
  lemma LeftoverDrawFails(n: nat) returns (first: State, s: State)
    requires n >= 3
    ensures Disordered(first, s) && |first.core.procs| == n
    ensures first.WellFormed() && FcfsControl(first.cpus[0]) && !OnOldest(first.core, first.cpus[0])
  {
    first := YoungerDrawn(n);
    first := SetPolicyAt(None, first, 0, 2, 1);
    ReachFirst(first);
    s := YoungerExits(first, n);
    s := OlderExits(first, s, n);
    assert s.core.gone[|first.core.gone|] == Gone(1, true) && s.core.gone[|first.core.gone| + 1] == Gone(0, true);
    assert !Behind(first.core, 1, 1);
  }

  // ---------- Exactly the settled states ----------

  /** What the scheduler owes to other policies when FCFS begins. */
  datatype Situation = InScan | ScanLeft | YoungerOnCpu | AllSettled

  ghost function SituationOf(s: State): Situation
    requires s.WellFormed() && |s.cpus| == 1
  {
    if s.cpus[0].ctl.Scan? then InScan
    else if !FcfsControl(s.cpus[0]) then ScanLeft
    else if !OnOldest(s.core, s.cpus[0]) then YoungerOnCpu
    else AllSettled
  }

  lemma SettledNeverFails(first: State, s: State)
    requires Settled(first)
    ensures !Disordered(first, s)
  {
    if Disordered(first, s) {
      var states, steps, lo: nat :| Ends(Some(first), states, steps, lo, s);
      var i, j :| |first.core.gone| <= i < j < |s.core.gone|
                  && s.core.gone[i].clean && s.core.gone[j].clean && s.core.gone[j].ctime < s.core.gone[i].ctime;
      FcfsExitsInOrder(states, steps, lo, |steps|, i, j);
    }
  }

  /** A state of one CPU and n slots in this situation. */
  ghost predicate StartsIn(first: State, n: nat, kind: Situation) {
    first.WellFormed() && |first.cpus| == 1 && |first.core.procs| == n && SituationOf(first) == kind
  }

  /** On a table of any size from three on, processes that never slept or yielded exit in order in every run from every
      state of a situation, if and only if that situation is the settled one. */
  lemma OrderedExactlyWhenSettled(n: nat, kind: Situation)
    requires n >= 3
    ensures (forall first, s :: StartsIn(first, n, kind) ==> !Disordered(first, s)) <==> kind == AllSettled
  {
    match kind
    case InScan =>
      var first, s := ScanUnderWayFails(n);
      assert StartsIn(first, n, kind) && Disordered(first, s);
    case ScanLeft =>
      var first, s := LeftoverScanFails(n);
      assert StartsIn(first, n, kind) && Disordered(first, s);
    case YoungerOnCpu =>
      var first, s := LeftoverDrawFails(n);
      assert StartsIn(first, n, kind) && Disordered(first, s);
    case AllSettled =>
      forall first, s | StartsIn(first, n, kind)
        ensures !Disordered(first, s)
      {
        SettledNeverFails(first, s);
      }
  }
}
