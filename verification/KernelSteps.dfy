/** What `kill` and a whole `fork` leave in the process table. */
module KernelSteps {
  import opened ProcTypes
  import opened ProcTable
  import opened Kernel
  import Lottery

  /** What a CPU that enters `scheduler` may dispatch: under policy 1 the runnable slot of least creation time, the
      first of them among equals; under policy 2, while the tickets fit an int, the holder of the ticket that the next
      draw falls on; otherwise it starts a scan at slot 0. */
  lemma SchedulerChoice(k: Core, c: nat, cpu: Cpu, i: nat)
    requires k.WellFormed() && k.Fits(cpu) && cpu.ctl.Idle? && k.lock == None
    ensures var k', cpu' := NextCore(k, c, cpu, SchedAcquire), NextCpu(k, cpu, SchedAcquire);
            && k' == k.(lock := Some(c)) && k'.WellFormed() && k'.Fits(cpu')
            && (k.policy == 1 ==>
                  (Can(k', cpu', ChoosePick(i)) <==>
                   && i < |k.procs| && k.procs[i].state == Runnable
                   && forall j :: 0 <= j < |k.procs| && k.procs[j].state == Runnable ==>
                        k.procs[i].ctime < k.procs[j].ctime || (k.procs[i].ctime == k.procs[j].ctime && i <= j)))
            && (k.policy == 2 && 0 < Lottery.TicketSum(k.procs) <= 0x7fff_ffff ==>
                  var draw := (k.seed * 1664525 + 1013904223) % 0x1_0000_0000;
                  Can(k', cpu', ChoosePick(i)) <==>
                  Lottery.HoldsTicket(k.procs, draw % Lottery.TicketSum(k.procs), i))
            && (k.policy != 1 && k.policy != 2 ==> cpu'.ctl == Scan(0))
  {
    if k.policy == 2 && 0 < Lottery.TicketSum(k.procs) <= 0x7fff_ffff {
      var total := Lottery.TicketSum(k.procs);
      Lottery.PrefixIsSum(k.procs, |k.procs|);
      Lottery.WinnerHoldsTicket(k.procs, (k.seed * 1664525 + 1013904223) % 0x1_0000_0000 % total, i);
    }
  }

  lemma OneFirstWithPid(procs: seq<Proc>, pid: int, i: nat, j: nat)
    requires FirstWithPid(procs, pid, i) && FirstWithPid(procs, pid, j)
    ensures i == j
  {
  }

  /** `kill` marks the first slot with the pid and wakes it if it sleeps; no other field and no other slot changes. */
  lemma KillEffect(k: Core, p: nat, pid: int, i: nat)
    requires k.WellFormed() && p < |k.procs| && i < |k.procs|
    ensures var k' := Performed(k, p, Kill(pid));
            && k' == k.(procs := k'.procs, lock := None) && |k'.procs| == |k.procs|
            && var was, slot := k.procs[i], k'.procs[i];
               if was.pid == pid && forall j :: 0 <= j < i ==> k.procs[j].pid != pid then
                 && slot.killed && slot.state == (if was.state == Sleeping then Runnable else was.state)
                 && slot == was.(killed := true, state := slot.state)
               else slot == was
  {
    if exists v: nat :: FirstWithPid(k.procs, pid, v) {
      var v: nat :| FirstWithPid(k.procs, pid, v);
      if FirstWithPid(k.procs, pid, i) {
        OneFirstWithPid(k.procs, pid, i, v);
      }
    } else {
      assert !FirstWithPid(k.procs, pid, i);
    }
  }

  /** A process that has gone to sleep on an address is woken by a `wakeup` on that address and by no other. */
  lemma SleepThenWakeup(k: Core, p: nat, q: nat, address: nat, other: nat)
    requires k.WellFormed() && p < |k.procs| && q < |k.procs|
    ensures Performed(k, p, Sleep(address)).WellFormed()
    ensures var asleep := Performed(k, p, Sleep(address));
            && asleep.procs[p].state == Sleeping && asleep.tasks[p].place == InSleep
            && Performed(asleep, q, WakeupOn(other)).procs[p] ==
               asleep.procs[p].(state := if other == address then Runnable else Sleeping)
  {
  }

  /** The sections of a `fork` by process `p` on CPU `c`, with nothing in between. */
  ghost function Forked(k: Core, c: nat, p: nat): Core
    requires k.WellFormed() && p < |k.procs| && exists e: nat :: FirstUnused(k.procs, e)
    requires k.procs[p].state != Unused
  {
    var cpu := Cpu(Some(p), Run(p), Leave);
    var k1 := Performed(k, p, Alloc);
    var k2 := NextCore(k1, c, cpu, InitEmbryo);
    var k3 := NextCore(k2, c, cpu, CopyParent);
    Performed(k3, p, Publish)
  }

  /** From k to k', process p has one child more: runnable, in slot e, with the next pid, born now with all its times
      zero, and with its parent's tickets, at least one. No other slot has changed. */
  ghost predicate OneChildMore(k: Core, k': Core, p: nat, e: nat) {
    && p < |k.procs| && e < |k.procs| == |k'.procs| && |k.procs| == |k.tasks| == |k'.tasks|
    && k'.nextPid == k.nextPid + 1 && k'.lock == None && k'.tasks[e] == Task(Ordinary, true)
    && (forall i :: 0 <= i < |k.procs| && i != e ==> k'.procs[i] == k.procs[i] && k'.tasks[i] == k.tasks[i])
    && var child := k'.procs[e];
       && child.state == Runnable && child.pid == k.nextPid && child.parent == Some(p) && child.stack
       && child.ctime == k.ticks && child.etime == child.rtime == child.stime == child.retime == 0
       && child.tickets == child.originalTickets
       && child.tickets == (if k.procs[p].tickets >= 1 then k.procs[p].tickets else 1)
  }

  /** What a process that forks undisturbed leaves. */
  lemma ForkEffect(k: Core, c: nat, p: nat, e: nat)
    requires k.WellFormed() && p < |k.procs| && k.procs[p].state != Unused && k.tasks[p].place == Ordinary
    requires FirstUnused(k.procs, e)
    ensures OneChildMore(k, Forked(k, c, p), p, e)
  {
  }
}
