/** What every step of the kernel machine keeps: one CPU per running process, and no lost exit. */
module KernelSafety {
  import opened ProcTypes
  import opened ProcTable
  import opened Kernel

  // ---------- CPUs and the lock ----------

  /** c->proc names the process in use; its state says how far the hand-over has got; the operation under way
      fits the place of the process in its own code. */
  ghost predicate CpuInv(k: Core, c: nat, cpu: Cpu)
    requires k.WellFormed()
  {
    && k.Fits(cpu)
    && (cpu.HoldsLock() <==> k.lock == Some(c))
    && cpu.proc == cpu.Uses()
    && (cpu.Executes().Some? ==> k.procs[cpu.Executes().value].state == Running)
    && (cpu.ctl.Dispatching? ==> k.procs[cpu.ctl.p].state == Runnable)
    && (cpu.ctl.Switching? ==> k.procs[cpu.ctl.p].state in {Runnable, Sleeping, Zombie})
    && PlaceInv(k, cpu)
  }

  ghost predicate PlaceInv(k: Core, cpu: Cpu)
    requires k.WellFormed() && k.Fits(cpu)
  {
    match cpu.ctl
    case Run(p) => k.tasks[p].place.Ordinary? || k.tasks[p].place.Forking?
    case Locked(p, op) =>
      (match op
       case Publish => k.tasks[p].place.Forking? && k.tasks[p].place.stage == 2
       case Yield => k.tasks[p].place.Ordinary? || k.tasks[p].place.Forking?
       case WakeupOn(_) => k.tasks[p].place.Ordinary? || k.tasks[p].place.Forking?
       case Exit => k.tasks[p].place.Ordinary? && p != k.init
       case Wait => k.tasks[p].place.Ordinary? || k.tasks[p].place.InWait?
       case _ => k.tasks[p].place.Ordinary?)
    case _ => true
  }

  ghost predicate SomeCpuExecutes(s: State, p: nat) {
    exists c :: 0 <= c < |s.cpus| && s.cpus[c].Executes() == Some(p)
  }

  ghost predicate SchedInv(s: State) {
    && s.core.WellFormed()
    && (forall c :: 0 <= c < |s.cpus| ==> CpuInv(s.core, c, s.cpus[c]))
    && (forall c, d :: 0 <= c < |s.cpus| && 0 <= d < |s.cpus| && c != d && s.cpus[c].Uses().Some? ==>
          s.cpus[c].Uses() != s.cpus[d].Uses())
    && (forall p :: 0 <= p < |s.core.procs| && s.core.procs[p].state == Running ==> SomeCpuExecutes(s, p))
  }

  // ---------- Families ----------

  predicate Alive(p: Proc) {
    p.state in {Runnable, Running, Sleeping}
  }

  ghost predicate SlotInv(k: Core, p: nat)
    requires k.WellFormed() && p < |k.procs|
  {
    var proc, place := k.procs[p], k.tasks[p].place;
    && proc.parent != Some(p) && (p == k.init ==> proc.parent == None)
    && (proc.state == Unused ==> proc.parent == None && !proc.stack)
    && (!Alive(proc) ==> place == Ordinary)
    && (Alive(proc) || proc.state == Zombie ==>
          && proc.stack
          && (p != k.init ==> proc.parent.Some? && proc.parent.value < |k.procs| && Alive(k.procs[proc.parent.value])))
    && (proc.state == Embryo && proc.parent.Some? ==>
          proc.parent.value < |k.procs| && k.tasks[proc.parent.value].place == Forking(p, 2))
    && (proc.state == Sleeping ==>
          || (place == InSleep && proc.chan.Some? && proc.chan.value.OnAddr?)
          || (place == InWait && proc.chan == Some(OnProc(p))))
    && (proc.state == Sleeping && place == InWait ==> HasChild(k.procs, p) && !HasZombieChild(k.procs, p))
    && (place.Forking? ==>
          var child := k.procs[place.child];
          && proc.state != Sleeping && place.child != p && place.stage <= 2
          && child.state == Embryo
          && (place.stage >= 1 ==> child.stack)
          && child.parent == (if place.stage == 2 then Some(p) else None))
  }

  ghost predicate OneForker(k: Core) {
    forall p, q ::
      && 0 <= p < |k.tasks| && 0 <= q < |k.tasks|
      && k.tasks[p].place.Forking? && k.tasks[q].place.Forking?
      && k.tasks[p].place.child == k.tasks[q].place.child
      ==> p == q
  }

  ghost predicate FamilyInv(k: Core)
    requires k.WellFormed()
  {
    && Alive(k.procs[k.init])
    && OneForker(k)
    && forall p :: 0 <= p < |k.procs| ==> SlotInv(k, p)
  }

  ghost predicate Inv(s: State) {
    SchedInv(s) && FamilyInv(s.core)
  }

  lemma InitialInv(s: State)
    requires Initial(s)
    ensures Inv(s)
  {
  }

  // ---------- A CPU's own step ----------

  lemma CorePerformed(k: Core, p: nat, op: Op)
    requires k.WellFormed() && p < |k.procs|
    ensures var k' := Performed(k, p, op);
            k'.WellFormed() && |k'.procs| == |k.procs| && k'.init == k.init
  {
  }

  lemma CoreStep(k: Core, c: nat, cpu: Cpu, act: Act)
    requires k.WellFormed() && k.Fits(cpu) && Can(k, cpu, act)
    ensures var k' := NextCore(k, c, cpu, act);
            k'.WellFormed() && |k'.procs| == |k.procs| && k'.init == k.init
  {
    if act.Perform? {
      CorePerformed(k, cpu.ctl.p, cpu.ctl.op);
    }
  }

  /** What the critical section does to the lock and to the process's own slot. */
  lemma OwnSlotPerformed(k: Core, p: nat, op: Op)
    requires k.WellFormed() && p < |k.procs| && k.procs[p].state == Running
    requires op.Publish? ==> k.tasks[p].place.Forking? && k.tasks[p].place.child != p
    ensures var k' := Performed(k, p, op);
            && |k'.procs| == |k.procs| && |k'.tasks| == |k.tasks|
            && if GivesUpCpu(k, p, op) then
                 k'.lock == k.lock && k'.procs[p].state in {Runnable, Sleeping, Zombie}
               else
                 && k'.lock == None && k'.procs[p].state == Running
                 && (k'.tasks[p].place == k.tasks[p].place || k'.tasks[p].place == Ordinary
                     || k'.tasks[p].place.Forking?)
                 && (op.Wait? ==> k'.tasks[p].place == Ordinary)
  {
  }

  lemma OwnPerform(k: Core, c: nat, cpu: Cpu)
    requires k.WellFormed() && CpuInv(k, c, cpu) && cpu.ctl.Locked?
    requires SlotInv(k, cpu.ctl.p)
    ensures var k' := Performed(k, cpu.ctl.p, cpu.ctl.op);
            k'.WellFormed() && CpuInv(k', c, NextCpu(k, cpu, Perform))
  {
    CorePerformed(k, cpu.ctl.p, cpu.ctl.op);
    OwnSlotPerformed(k, cpu.ctl.p, cpu.ctl.op);
  }

  lemma OwnCpuStep(k: Core, c: nat, cpu: Cpu, act: Act)
    requires k.WellFormed() && CpuInv(k, c, cpu) && Can(k, cpu, act)
    requires cpu.Uses().Some? ==> SlotInv(k, cpu.Uses().value)
    ensures var k' := NextCore(k, c, cpu, act);
            k'.WellFormed() && CpuInv(k', c, NextCpu(k, cpu, act))
  {
    CoreStep(k, c, cpu, act);
    if act.Perform? {
      OwnPerform(k, c, cpu);
    }
  }

  /** What a step of CPU `c` can do to the state and the place of a slot. */
  ghost predicate Change(k: Core, k': Core, c: nat, cpu: Cpu, p: nat)
    requires k.WellFormed() && k'.WellFormed() && p < |k.procs| == |k'.procs|
  {
    var before, after := k.procs[p].state, k'.procs[p].state;
    || cpu.Uses() == Some(p)
    || (after == before && k'.tasks[p] == k.tasks[p])
    || (before == Sleeping && after == Runnable && k'.tasks[p] == k.tasks[p])
    || (cpu.HoldsLock() && before == Zombie && after == Unused && k'.tasks[p] == k.tasks[p])
    || (cpu.HoldsLock() && before == Runnable && after == Running && k'.tasks[p] == k.tasks[p])
    || (before in {Embryo, Unused} && after in {Embryo, Unused, Runnable})
  }

  lemma ExitedSlot(procs: seq<Proc>, cur: nat, init: nat, ticks: nat, p: nat)
    requires cur < |procs| && p < |procs| && p != cur
    ensures var after := Exited(procs, cur, init, ticks)[p];
            || after.state == procs[p].state
            || (procs[p].state == Sleeping && after.state == Runnable)
  {
  }

  lemma ChangePerformed(k: Core, actor: nat, op: Op, p: nat)
    requires k.WellFormed() && actor < |k.procs| && p < |k.procs| && p != actor
    requires op.Publish? && k.tasks[actor].place.Forking? ==> k.procs[k.tasks[actor].place.child].state == Embryo
    ensures var k' := Performed(k, actor, op);
            && |k'.procs| == |k.procs| && |k'.tasks| == |k.tasks|
            && var before, after := k.procs[p].state, k'.procs[p].state;
               || (after == before && k'.tasks[p] == k.tasks[p])
               || (before == Sleeping && after == Runnable && k'.tasks[p] == k.tasks[p])
               || (before == Zombie && after == Unused && k'.tasks[p] == k.tasks[p])
               || (before in {Embryo, Unused} && after in {Embryo, Unused, Runnable})
  {
    if op.Exit? {
      ExitedSlot(k.procs, actor, k.init, k.ticks, p);
    }
  }

  lemma ChangeStep(k: Core, c: nat, cpu: Cpu, act: Act, p: nat)
    requires k.WellFormed() && CpuInv(k, c, cpu) && Can(k, cpu, act)
    requires cpu.Uses().Some? ==> SlotInv(k, cpu.Uses().value)
    requires p < |k.procs|
    ensures NextCore(k, c, cpu, act).WellFormed() && |NextCore(k, c, cpu, act).procs| == |k.procs|
    ensures Change(k, NextCore(k, c, cpu, act), c, cpu, p)
  {
    CoreStep(k, c, cpu, act);
    if act.Perform? {
      if p != cpu.ctl.p {
        ChangePerformed(k, cpu.ctl.p, cpu.ctl.op, p);
      }
    }
  }

  /** The other CPUs keep their invariant. */
  lemma OtherCpuStep(k: Core, c: nat, cpu: Cpu, act: Act, d: nat, other: Cpu)
    requires k.WellFormed() && CpuInv(k, c, cpu) && CpuInv(k, d, other) && Can(k, cpu, act) && c != d
    requires cpu.Uses().Some? ==> SlotInv(k, cpu.Uses().value)
    requires cpu.Uses().Some? ==> cpu.Uses() != other.Uses()
    ensures var k' := NextCore(k, c, cpu, act);
            k'.WellFormed() && CpuInv(k', d, other)
  {
    CoreStep(k, c, cpu, act);
    LockStep(k, c, cpu, act);
    if other.Uses().Some? {
      ChangeStep(k, c, cpu, act, other.Uses().value);
    }
  }

  lemma LockStep(k: Core, c: nat, cpu: Cpu, act: Act)
    requires k.WellFormed() && CpuInv(k, c, cpu) && Can(k, cpu, act)
    ensures var lock' := NextCore(k, c, cpu, act).lock;
            || lock' == k.lock
            || (k.lock == None && lock' == Some(c))
            || (k.lock == Some(c) && lock' == None)
  {
  }

  /** A running process was running before on another CPU, or this CPU executes it now. */
  lemma RunningStep(k: Core, c: nat, cpu: Cpu, act: Act, p: nat)
    requires k.WellFormed() && CpuInv(k, c, cpu) && Can(k, cpu, act) && p < |k.procs|
    requires cpu.Uses().Some? ==> SlotInv(k, cpu.Uses().value)
    requires NextCore(k, c, cpu, act).WellFormed() && |NextCore(k, c, cpu, act).procs| == |k.procs|
    requires NextCore(k, c, cpu, act).procs[p].state == Running
    ensures NextCpu(k, cpu, act).Executes() == Some(p) || (k.procs[p].state == Running && cpu.Executes() != Some(p))
  {
    if act.Perform? && p != cpu.ctl.p {
      ChangePerformed(k, cpu.ctl.p, cpu.ctl.op, p);
    }
  }

  /** A CPU takes up a process only while no other CPU uses it. */
  lemma UsesStep(k: Core, c: nat, cpu: Cpu, act: Act, d: nat, other: Cpu)
    requires k.WellFormed() && CpuInv(k, c, cpu) && CpuInv(k, d, other) && Can(k, cpu, act) && c != d
    requires cpu.Uses().Some? ==> cpu.Uses() != other.Uses()
    ensures NextCpu(k, cpu, act).Uses().Some? ==> NextCpu(k, cpu, act).Uses() != other.Uses()
  {
  }

  lemma ActStep(s: State, c: nat, act: Act)
    requires Inv(s) && s.WellFormed() && Enabled(s, On(c, act))
    ensures var s' := Next(s, On(c, act));
            && s'.core.WellFormed()
            && forall d :: 0 <= d < |s'.cpus| ==> CpuInv(s'.core, d, s'.cpus[d])
  {
    var s', cpu := Next(s, On(c, act)), s.cpus[c];
    OwnCpuStep(s.core, c, cpu, act);
    forall d | 0 <= d < |s'.cpus|
      ensures CpuInv(s'.core, d, s'.cpus[d])
    {
      if d != c {
        OtherCpuStep(s.core, c, cpu, act, d, s.cpus[d]);
      }
    }
  }

  lemma DistinctStep(s: State, c: nat, act: Act, d: nat, e: nat)
    requires Inv(s) && s.WellFormed() && Enabled(s, On(c, act))
    requires d < |s.cpus| && e < |s.cpus| && d != e && Next(s, On(c, act)).cpus[d].Uses().Some?
    ensures Next(s, On(c, act)).cpus[d].Uses() != Next(s, On(c, act)).cpus[e].Uses()
  {
    if c == d {
      UsesStep(s.core, c, s.cpus[c], act, e, s.cpus[e]);
    } else if c == e {
      UsesStep(s.core, c, s.cpus[c], act, d, s.cpus[d]);
    }
  }

  lemma ExecutesStep(s: State, c: nat, act: Act, p: nat)
    requires Inv(s) && s.WellFormed() && Enabled(s, On(c, act))
    requires p < |Next(s, On(c, act)).core.procs| && Next(s, On(c, act)).core.procs[p].state == Running
    ensures SomeCpuExecutes(Next(s, On(c, act)), p)
  {
    var s', cpu := Next(s, On(c, act)), s.cpus[c];
    CoreStep(s.core, c, cpu, act);
    RunningStep(s.core, c, cpu, act, p);
    if s'.cpus[c].Executes() == Some(p) {
      assert 0 <= c < |s'.cpus|;
    } else {
      assert SomeCpuExecutes(s, p);
      var d :| 0 <= d < |s.cpus| && s.cpus[d].Executes() == Some(p);
      assert s'.cpus[d] == s.cpus[d];
    }
  }

  lemma ClockStep(s: State, step: Step)
    requires Inv(s) && s.WellFormed() && Enabled(s, step) && !step.On?
    ensures Inv(Next(s, step))
  {
    var s' := Next(s, step);
    WakeSome(s.core, s'.core.procs);
    SameFamily(s.core.(procs := s'.core.procs), s'.core);
    forall c | 0 <= c < |s'.cpus|
      ensures CpuInv(s'.core, c, s'.cpus[c])
    {
      assert CpuInv(s.core, c, s.cpus[c]);
    }
    forall p | 0 <= p < |s'.core.procs| && s'.core.procs[p].state == Running
      ensures SomeCpuExecutes(s', p)
    {
      assert SomeCpuExecutes(s, p);
    }
  }

  lemma SchedStep(s: State, c: nat, act: Act)
    requires Inv(s) && s.WellFormed() && Enabled(s, On(c, act))
    ensures SchedInv(Next(s, On(c, act)))
  {
    var s' := Next(s, On(c, act));
    ActStep(s, c, act);
    forall d, e | 0 <= d < |s'.cpus| && 0 <= e < |s'.cpus| && d != e && s'.cpus[d].Uses().Some?
      ensures s'.cpus[d].Uses() != s'.cpus[e].Uses()
    {
      DistinctStep(s, c, act, d, e);
    }
    forall p | 0 <= p < |s'.core.procs| && s'.core.procs[p].state == Running
      ensures SomeCpuExecutes(s', p)
    {
      ExecutesStep(s, c, act, p);
    }
  }

  // ---------- Families, step by step ----------

  /** A sleeper at `place` sleeps on what that place sleeps on, and in `wait` only with children to wait for. */
  ghost predicate SleepsWell(k: Core, p: nat, proc: Proc, place: Place) {
    proc.state == Sleeping ==>
      || (place == InSleep && proc.chan.Some? && proc.chan.value.OnAddr?)
      || (place == InWait && proc.chan == Some(OnProc(p)) && HasChild(k.procs, p) && !HasZombieChild(k.procs, p))
  }

  /** A change of one alive slot that keeps it alive, with its parent, keeps the families. */
  lemma TouchAlive(k: Core, p: nat, proc: Proc, place: Place, clean: bool)
    requires k.WellFormed() && FamilyInv(k) && p < |k.procs| && Alive(k.procs[p])
    requires Alive(proc) && proc.parent == k.procs[p].parent && proc.stack == k.procs[p].stack
    requires place == k.tasks[p].place || (!k.tasks[p].place.Forking? && !place.Forking?)
    requires SleepsWell(k, p, proc, place)
    ensures var k' := k.(procs := k.procs[p := proc], tasks := k.tasks[p := Task(place, clean)]);
            k'.WellFormed() && FamilyInv(k')
  {
    var k' := k.(procs := k.procs[p := proc], tasks := k.tasks[p := Task(place, clean)]);
    assert SlotInv(k, p);
    forall q | 0 <= q < |k.procs|
      ensures SlotInv(k', q)
    {
      if q == p {
        TouchedSlot(k, k', p);
      } else {
        UntouchedSlot(k, k', p, q);
      }
    }
  }

  lemma TouchedSlot(k: Core, k': Core, p: nat)
    requires k.WellFormed() && k'.WellFormed() && p < |k.procs| && SlotInv(k, p) && Alive(k.procs[p])
    requires |k'.procs| == |k.procs| && k'.init == k.init
    requires forall i :: 0 <= i < |k.procs| && i != p ==> k'.procs[i] == k.procs[i]
    requires Alive(k'.procs[p]) && k'.procs[p].parent == k.procs[p].parent && k'.procs[p].stack == k.procs[p].stack
    requires k'.tasks[p].place == k.tasks[p].place || !k'.tasks[p].place.Forking?
    requires SleepsWell(k, p, k'.procs[p], k'.tasks[p].place)
    ensures SlotInv(k', p)
  {
    SameChildren(k.procs, k'.procs, p);
  }

  lemma UntouchedSlot(k: Core, k': Core, p: nat, q: nat)
    requires k.WellFormed() && k'.WellFormed() && p < |k.procs| && q < |k.procs| && p != q
    requires |k'.procs| == |k.procs| && k'.init == k.init && k'.procs[p].parent == k.procs[p].parent
    requires SlotInv(k, q) && Alive(k.procs[p]) && Alive(k'.procs[p])
    requires forall i :: 0 <= i < |k.procs| && i != p ==> k'.procs[i] == k.procs[i] && k'.tasks[i] == k.tasks[i]
    requires k'.tasks[p].place == k.tasks[p].place || !k.tasks[p].place.Forking?
    ensures SlotInv(k', q)
  {
    SameChildren(k.procs, k'.procs, q);
  }

  lemma SameChildren(procs: seq<Proc>, procs': seq<Proc>, q: nat)
    requires |procs'| == |procs|
    requires forall i :: 0 <= i < |procs| ==>
               procs'[i].parent == procs[i].parent && (procs'[i].state == Zombie <==> procs[i].state == Zombie)
    ensures HasChild(procs', q) <==> HasChild(procs, q)
    ensures HasZombieChild(procs', q) <==> HasZombieChild(procs, q)
  {
  }

  /** A slot whose family fields are kept, and whose sleeper may have been woken. */
  predicate KeptOrWoken(before: Proc, after: Proc) {
    && after.parent == before.parent && after.stack == before.stack && after.chan == before.chan
    && (after.state == before.state || (before.state == Sleeping && after.state == Runnable))
  }

  lemma WakeSome(k: Core, procs: seq<Proc>)
    requires k.WellFormed() && FamilyInv(k) && |procs| == |k.procs|
    requires forall i :: 0 <= i < |procs| ==> KeptOrWoken(k.procs[i], procs[i])
    ensures k.(procs := procs).WellFormed() && FamilyInv(k.(procs := procs))
  {
    var k' := k.(procs := procs);
    forall q | 0 <= q < |k.procs|
      ensures SlotInv(k', q)
    {
      assert SlotInv(k, q);
      SameChildren(k.procs, procs, q);
    }
  }

  lemma ReapStep(k: Core, p: nat, z: nat)
    requires k.WellFormed() && FamilyInv(k) && p < |k.procs| && k.procs[p].state == Running
    requires FirstZombieChild(k.procs, p, z)
    ensures var k' := k.SetProc(z, Reaped(k.procs[z]));
            k'.WellFormed() && FamilyInv(k')
  {
    var k' := k.SetProc(z, Reaped(k.procs[z]));
    assert SlotInv(k, z);
    forall q | 0 <= q < |k.procs|
      ensures SlotInv(k', q)
    {
      assert SlotInv(k, q);
      if q != z && k.procs[q].state == Sleeping && k.tasks[q].place == InWait {
        var i :| 0 <= i < |k.procs| && k.procs[i].parent == Some(q);
        assert k'.procs[i].parent == Some(q);
      }
    }
  }

  /** What the change of one slot, no zombie before or after, and of the place of the process that forks it must keep
      for every third slot. */
  lemma BystanderSlot(k: Core, k': Core, p: nat, e: nat, q: nat)
    requires k.WellFormed() && k'.WellFormed() && p < |k.procs| && e < |k.procs| && q < |k.procs| && q != p && q != e
    requires |k'.procs| == |k.procs| && k'.init == k.init && SlotInv(k, q)
    requires forall i :: 0 <= i < |k.procs| && i != e ==> k'.procs[i] == k.procs[i]
    requires forall i :: 0 <= i < |k.procs| && i != e && i != p ==> k'.tasks[i] == k.tasks[i]
    requires !Alive(k.procs[e]) && k.procs[e].state != Zombie && k'.procs[e].state != Zombie
    requires k.procs[e].parent != Some(q) || k'.procs[e].parent == Some(q)
    requires k.tasks[q].place.Forking? ==> k.tasks[q].place.child != e
    requires k.procs[q].state == Embryo && k.procs[q].parent == Some(p) ==> k'.tasks[p].place == k.tasks[p].place
    requires k.procs[q].state == Embryo ==> k.procs[q].parent != Some(e)
    ensures SlotInv(k', q)
  {
    KeepsChildren(k.procs, k'.procs, e, q);
  }

  lemma AllocStep(k: Core, p: nat, e: nat, pid: int)
    requires k.WellFormed() && FamilyInv(k) && p < |k.procs| && k.procs[p].state == Running
    requires k.tasks[p].place == Ordinary && FirstUnused(k.procs, e)
    ensures var k' := k.SetProc(e, k.procs[e].(state := Embryo, pid := pid)).SetPlace(p, Forking(e, 0));
            k'.WellFormed() && FamilyInv(k')
  {
    var k' := k.SetProc(e, k.procs[e].(state := Embryo, pid := pid)).SetPlace(p, Forking(e, 0));
    assert SlotInv(k, e) && SlotInv(k, p);
    NotForked(k, e);
    forall q | 0 <= q < |k.procs|
      ensures SlotInv(k', q)
    {
      assert SlotInv(k, q);
      if q != p && q != e {
        BystanderSlot(k, k', p, e, q);
      }
    }
  }

  lemma NotForked(k: Core, e: nat)
    requires k.WellFormed() && FamilyInv(k) && e < |k.procs| && k.procs[e].state != Embryo
    ensures forall q :: 0 <= q < |k.procs| && k.tasks[q].place.Forking? ==> k.tasks[q].place.child != e
  {
    forall q | 0 <= q < |k.procs| && k.tasks[q].place.Forking?
      ensures k.tasks[q].place.child != e
    {
      assert SlotInv(k, q);
    }
  }

  /** Any change of the embryo that `p` is forking, of its fields or its stage, up to stage 2. */
  lemma EmbryoStep(k: Core, p: nat, proc: Proc, stage: nat, task: Task)
    requires k.WellFormed() && FamilyInv(k) && p < |k.procs| && k.procs[p].state == Running
    requires k.tasks[p].place.Forking? && k.tasks[p].place.stage <= stage <= 2
    requires proc.state == Embryo && (stage >= 1 ==> proc.stack)
    requires proc.parent == if stage == 2 then Some(p) else None
    requires task.place == Ordinary
    ensures var e := k.tasks[p].place.child;
            var k' := k.(procs := k.procs[e := proc],
                         tasks := k.tasks[e := task][p := k.tasks[p].(place := Forking(e, stage))]);
            k'.WellFormed() && FamilyInv(k')
  {
    var e := k.tasks[p].place.child;
    var k' := k.(procs := k.procs[e := proc],
                 tasks := k.tasks[e := task][p := k.tasks[p].(place := Forking(e, stage))]);
    assert SlotInv(k, e) && SlotInv(k, p);
    forall q | 0 <= q < |k.procs|
      ensures SlotInv(k', q)
    {
      if q != p && q != e {
        ForkBystander(k, p, e, q);
        BystanderSlot(k, k', p, e, q);
      } else {
        ForkedSlot(k, k', p, e, stage, q);
      }
    }
  }

  /** A third slot is neither forking that embryo nor an embryo of either. */
  lemma ForkBystander(k: Core, p: nat, e: nat, q: nat)
    requires k.WellFormed() && FamilyInv(k) && p < |k.procs| && q < |k.procs| && q != p && q != e
    requires k.tasks[p].place.Forking? && k.tasks[p].place.child == e
    ensures SlotInv(k, q)
    ensures k.tasks[q].place.Forking? ==> k.tasks[q].place.child != e
    ensures k.procs[q].state == Embryo ==> k.procs[q].parent != Some(p) && k.procs[q].parent != Some(e)
  {
    assert SlotInv(k, q) && SlotInv(k, e) && SlotInv(k, p);
  }

  /** The parent and its embryo. */
  lemma ForkedSlot(k: Core, k': Core, p: nat, e: nat, stage: nat, q: nat)
    requires k.WellFormed() && k'.WellFormed() && p < |k.procs| && e < |k.procs| && p != e && (q == p || q == e)
    requires |k'.procs| == |k.procs| && k'.init == k.init && SlotInv(k, p) && SlotInv(k, e)
    requires k.procs[p].state == Running
    requires k.tasks[p].place.Forking? && k.tasks[p].place.child == e && stage <= 2
    requires k'.procs[p] == k.procs[p] && k'.tasks[p].place == Forking(e, stage) && k'.tasks[e].place == Ordinary
    requires k'.procs[e].state == Embryo && (stage >= 1 ==> k'.procs[e].stack)
    requires k'.procs[e].parent == if stage == 2 then Some(p) else None
    requires forall i :: 0 <= i < |k.procs| && i != e ==> k'.procs[i] == k.procs[i]
    requires k.procs[p].parent != Some(e) && e != k.init
    ensures SlotInv(k', q)
  {
  }

  /** Replacing a slot that is not a child of `q`, by one that is not a zombie child of `q`. */
  lemma KeepsChildren(procs: seq<Proc>, procs': seq<Proc>, e: nat, q: nat)
    requires e < |procs| && |procs'| == |procs|
    requires forall i :: 0 <= i < |procs| && i != e ==> procs'[i] == procs[i]
    requires procs[e].parent != Some(q) || procs'[e].parent == Some(q)
    requires procs'[e].state == Zombie && procs'[e].parent == Some(q) ==>
              procs[e].state == Zombie && procs[e].parent == Some(q)
    ensures HasChild(procs, q) ==> HasChild(procs', q)
    ensures HasZombieChild(procs', q) ==> HasZombieChild(procs, q)
  {
    if HasChild(procs, q) {
      var i :| 0 <= i < |procs| && procs[i].parent == Some(q);
      assert procs'[i].parent == Some(q);
    }
  }

  /** The embryo leaves `fork`, published as runnable or given back. */
  lemma FinishFork(k: Core, p: nat, proc: Proc)
    requires k.WellFormed() && FamilyInv(k) && p < |k.procs| && k.procs[p].state == Running
    requires k.tasks[p].place.Forking?
    requires proc.parent == k.procs[k.tasks[p].place.child].parent
    requires if proc.state == Runnable then k.tasks[p].place.stage == 2 && proc.stack
             else proc.state == Unused && !proc.stack && k.tasks[p].place.stage < 2
    ensures var k' := k.SetProc(k.tasks[p].place.child, proc).SetPlace(p, Ordinary);
            k'.WellFormed() && FamilyInv(k')
  {
    var e := k.tasks[p].place.child;
    var k' := k.SetProc(e, proc).SetPlace(p, Ordinary);
    assert SlotInv(k, e) && SlotInv(k, p);
    forall q | 0 <= q < |k.procs|
      ensures SlotInv(k', q)
    {
      if q != p && q != e {
        ForkBystander(k, p, e, q);
        BystanderSlot(k, k', p, e, q);
      }
    }
  }

  /** What `exit` does to a slot other than its own, when `parent` is woken and init is if `zombies`. */
  predicate ExitEffect(before: Proc, after: Proc, cur: nat, parent: nat, init: nat, zombies: bool) {
    && after.parent == (if before.parent == Some(cur) then Some(init) else before.parent)
    && after.stack == before.stack && after.chan == before.chan
    && after.state == if before.state == Sleeping && before.chan.Some? &&
                         (before.chan == Some(OnProc(parent)) || (zombies && before.chan == Some(OnProc(init))))
                      then Runnable else before.state
  }

  lemma ExitedEffect(procs: seq<Proc>, cur: nat, init: nat, ticks: nat)
    requires cur < |procs| && procs[cur].parent.Some? && procs[cur].parent != Some(cur) && procs[cur].state == Running
    ensures var after := Exited(procs, cur, init, ticks);
            && after[cur].state == Zombie && after[cur].stack == procs[cur].stack
            && after[cur].parent == procs[cur].parent
            && forall i :: 0 <= i < |procs| && i != cur ==>
                 ExitEffect(procs[i], after[i], cur, procs[cur].parent.value, init, HasZombieChild(procs, cur))
  {
    SameChildren(procs, WakeParent(procs, cur), cur);
  }

  /** The families after `exit`: the parent sleeps no more, the children belong to init. */
  lemma ExitFamily(k: Core, p: nat, procs: seq<Proc>)
    requires k.WellFormed() && FamilyInv(k) && p < |k.procs| == |procs| && k.procs[p].state == Running
    requires k.tasks[p].place == Ordinary && p != k.init && k.procs[p].parent.Some?
    requires procs[p].state == Zombie && procs[p].stack
    requires procs[p].parent == k.procs[p].parent
    requires forall i :: 0 <= i < |procs| && i != p ==>
               ExitEffect(k.procs[i], procs[i], p, k.procs[p].parent.value, k.init, HasZombieChild(k.procs, p))
    ensures k.(procs := procs).WellFormed() && FamilyInv(k.(procs := procs))
  {
    var k' := k.(procs := procs);
    assert SlotInv(k, p);
    forall q | 0 <= q < |k.procs|
      ensures SlotInv(k', q)
    {
      assert SlotInv(k, q);
      if procs[q].state == Sleeping && k.tasks[q].place == InWait {
        ExitSleeper(k, p, procs, q);
      }
    }
  }

  /** A process that stays asleep in `wait` through an exit has lost no child and gained no zombie. */
  lemma ExitSleeper(k: Core, p: nat, procs: seq<Proc>, q: nat)
    requires k.WellFormed() && FamilyInv(k) && p < |k.procs| == |procs| && k.procs[p].state == Running
    requires p != k.init && k.procs[p].parent.Some? && q < |procs| && q != p
    requires procs[p].parent == k.procs[p].parent
    requires forall i :: 0 <= i < |procs| && i != p ==>
               ExitEffect(k.procs[i], procs[i], p, k.procs[p].parent.value, k.init, HasZombieChild(k.procs, p))
    requires procs[q].state == Sleeping && k.tasks[q].place == InWait
    ensures HasChild(procs, q) && !HasZombieChild(procs, q)
  {
    assert SlotInv(k, q) && SlotInv(k, p);
    assert ExitEffect(k.procs[q], procs[q], p, k.procs[p].parent.value, k.init, HasZombieChild(k.procs, p));
    var i :| 0 <= i < |k.procs| && k.procs[i].parent == Some(q);
    assert procs[i].parent == Some(q);
  }

  lemma ExitStep(k: Core, p: nat)
    requires k.WellFormed() && FamilyInv(k) && p < |k.procs| && k.procs[p].state == Running
    requires k.tasks[p].place == Ordinary && p != k.init
    ensures Performed(k, p, Exit).WellFormed() && FamilyInv(Performed(k, p, Exit))
  {
    assert SlotInv(k, p);
    ExitedEffect(k.procs, p, k.init, k.ticks);
    ExitFamily(k, p, Exited(k.procs, p, k.init, k.ticks));
    SameFamily(k.(procs := Exited(k.procs, p, k.init, k.ticks)), Performed(k, p, Exit));
  }

  lemma SameFamily(k: Core, k': Core)
    requires k.WellFormed() && FamilyInv(k) && k'.procs == k.procs && k'.tasks == k.tasks && k'.init == k.init
    ensures k'.WellFormed() && FamilyInv(k')
  {
    forall q | 0 <= q < |k.procs|
      ensures SlotInv(k', q)
    {
      assert SlotInv(k, q);
    }
  }

  lemma WaitStep(k: Core, p: nat)
    requires k.WellFormed() && FamilyInv(k) && p < |k.procs| && k.procs[p].state == Running
    requires !k.tasks[p].place.Forking?
    ensures Waited(k, p).WellFormed() && FamilyInv(Waited(k, p))
  {
    if WaitSleeps(k, p) {
      assert !HasZombieChild(k.procs, p) by {
        NoFirstNoZombie(k.procs, p, |k.procs|);
      }
      TouchAlive(k, p, k.procs[p].(state := Sleeping, chan := Some(OnProc(p))), InWait, false);
      assert Waited(k, p).tasks == k.tasks[p := Task(InWait, false)];
    } else {
      TouchAlive(k, p, k.procs[p], Ordinary, k.tasks[p].clean);
      var k1 := k.SetPlace(p, Ordinary);
      assert k1 == k.(procs := k.procs[p := k.procs[p]], tasks := k.tasks[p := Task(Ordinary, k.tasks[p].clean)]);
      if exists z: nat :: FirstZombieChild(k.procs, p, z) {
        var z: nat :| FirstZombieChild(k.procs, p, z) && Waited(k, p).procs == k.procs[z := Reaped(k.procs[z])];
        ReapStep(k1, p, z);
        SameFamily(k1.SetProc(z, Reaped(k.procs[z])), Waited(k, p));
      } else {
        SameFamily(k1, Waited(k, p));
      }
    }
  }

  lemma {:induction false} NoFirstNoZombie(procs: seq<Proc>, p: nat, n: nat)
    requires n <= |procs| && forall z: nat :: !FirstZombieChild(procs, p, z)
    ensures forall i :: 0 <= i < n ==> !(procs[i].parent == Some(p) && procs[i].state == Zombie)
  {
    if n > 0 {
      NoFirstNoZombie(procs, p, n - 1);
      assert !FirstZombieChild(procs, p, n - 1);
    }
  }

  lemma GiveUpStep(k: Core, c: nat, cpu: Cpu)
    requires k.WellFormed() && FamilyInv(k) && CpuInv(k, c, cpu) && cpu.ctl.Locked?
    requires cpu.ctl.op.Yield? || cpu.ctl.op.Sleep?
    ensures var k' := Performed(k, cpu.ctl.p, cpu.ctl.op);
            k'.WellFormed() && FamilyInv(k')
  {
    var p := cpu.ctl.p;
    var k' := Performed(k, p, cpu.ctl.op);
    if cpu.ctl.op.Yield? {
      TouchAlive(k, p, k'.procs[p], k.tasks[p].place, false);
      assert k'.tasks == k.tasks[p := Task(k.tasks[p].place, false)];
    } else {
      TouchAlive(k, p, k'.procs[p], InSleep, false);
      assert k'.tasks == k.tasks[p := Task(InSleep, false)];
    }
    SameFamily(k.(procs := k.procs[p := k'.procs[p]], tasks := k'.tasks), k');
  }

  lemma BirthStep(k: Core, c: nat, cpu: Cpu)
    requires k.WellFormed() && FamilyInv(k) && CpuInv(k, c, cpu) && cpu.ctl.Locked?
    requires cpu.ctl.op.Alloc? || cpu.ctl.op.Publish?
    ensures var k' := Performed(k, cpu.ctl.p, cpu.ctl.op);
            k'.WellFormed() && FamilyInv(k')
  {
    var p := cpu.ctl.p;
    var k' := Performed(k, p, cpu.ctl.op);
    if cpu.ctl.op.Publish? {
      var e := k.tasks[p].place.child;
      assert SlotInv(k, p) && SlotInv(k, e);
      FinishFork(k, p, k'.procs[e]);
      SameFamily(k.SetProc(e, k'.procs[e]).SetPlace(p, Ordinary), k');
    } else if exists e: nat :: FirstUnused(k.procs, e) {
      var e: nat :| FirstUnused(k.procs, e) && k'.procs == k.procs[e := k.procs[e].(state := Embryo, pid := k.nextPid)]
                    && k'.tasks == k.SetPlace(p, Forking(e, 0)).tasks;
      AllocStep(k, p, e, k.nextPid);
      SameFamily(k.SetProc(e, k.procs[e].(state := Embryo, pid := k.nextPid)).SetPlace(p, Forking(e, 0)), k');
    } else {
      SameFamily(k, k');
    }
  }

  lemma PerformStep(k: Core, c: nat, cpu: Cpu)
    requires k.WellFormed() && FamilyInv(k) && CpuInv(k, c, cpu) && cpu.ctl.Locked?
    ensures var k' := Performed(k, cpu.ctl.p, cpu.ctl.op);
            k'.WellFormed() && FamilyInv(k')
  {
    var p, op := cpu.ctl.p, cpu.ctl.op;
    match op {
      case Yield => GiveUpStep(k, c, cpu);
      case Sleep(address) => GiveUpStep(k, c, cpu);
      case Exit => ExitStep(k, p);
      case Wait => WaitStep(k, p);
      case Alloc => BirthStep(k, c, cpu);
      case Publish => BirthStep(k, c, cpu);
      case _ =>
        var k' := Performed(k, p, op);
        WakeSome(k, k'.procs);
        SameFamily(k.(procs := k'.procs), k');
    }
  }

  lemma ForkStep(k: Core, c: nat, cpu: Cpu, act: Act)
    requires k.WellFormed() && FamilyInv(k) && CpuInv(k, c, cpu) && Can(k, cpu, act)
    requires act.InitEmbryo? || act.CopyParent? || act.ForkFail?
    ensures var k' := NextCore(k, c, cpu, act);
            k'.WellFormed() && FamilyInv(k')
  {
    var p := cpu.ctl.p;
    var e := k.tasks[p].place.child;
    var k' := NextCore(k, c, cpu, act);
    assert SlotInv(k, p) && SlotInv(k, e);
    match act {
      case InitEmbryo =>
        EmbryoStep(k, p, k'.procs[e], 1, Task(Ordinary, true));
        SameFamily(k.(procs := k.procs[e := k'.procs[e]], tasks := k'.tasks), k');
      case CopyParent =>
        EmbryoStep(k, p, k'.procs[e], 2, k.tasks[e]);
        assert k'.tasks == k.tasks[e := k.tasks[e]][p := k.tasks[p].(place := Forking(e, 2))];
        SameFamily(k.(procs := k.procs[e := k'.procs[e]], tasks := k'.tasks), k');
      case ForkFail =>
        FinishFork(k, p, k'.procs[e]);
        SameFamily(k.SetProc(e, k'.procs[e]).SetPlace(p, Ordinary), k');
    }
  }

  lemma FamilyStep(k: Core, c: nat, cpu: Cpu, act: Act)
    requires k.WellFormed() && FamilyInv(k) && CpuInv(k, c, cpu) && Can(k, cpu, act)
    ensures var k' := NextCore(k, c, cpu, act);
            k'.WellFormed() && FamilyInv(k')
  {
    var k' := NextCore(k, c, cpu, act);
    match act {
      case Perform => PerformStep(k, c, cpu);
      case InitEmbryo => ForkStep(k, c, cpu, act);
      case CopyParent => ForkStep(k, c, cpu, act);
      case ForkFail => ForkStep(k, c, cpu, act);
      case Enter =>
        var p := cpu.ctl.p;
        TouchAlive(k, p, k.procs[p].(state := Running), k.tasks[p].place, k.tasks[p].clean);
        SameFamily(k.(procs := k'.procs, tasks := k.tasks[p := k.tasks[p]]), k');
      case Resume =>
        var p := cpu.ctl.p;
        if k.tasks[p].place.InSleep? {
          TouchAlive(k, p, k.procs[p].(chan := None), Ordinary, k.tasks[p].clean);
          SameFamily(k.(procs := k'.procs, tasks := k.tasks[p := Task(Ordinary, k.tasks[p].clean)]), k');
        } else if k.tasks[p].place.InWait? {
          TouchAlive(k, p, k.procs[p].(chan := None), InWait, k.tasks[p].clean);
          SameFamily(k.(procs := k'.procs, tasks := k.tasks[p := Task(InWait, k.tasks[p].clean)]), k');
        } else {
          SameFamily(k, k');
        }
      case InterruptWakeup =>
        WakeSome(k, k'.procs);
        SameFamily(k.(procs := k'.procs), k');
      case KillSelf =>
        WakeSome(k, k'.procs);
        SameFamily(k.(procs := k'.procs), k');
      case _ => SameFamily(k, k');
    }
  }

  /** Every step of every CPU, and of the clock, keeps the invariant. */
  lemma InvStep(s: State, step: Step)
    requires Inv(s) && s.WellFormed() && Enabled(s, step)
    ensures Inv(Next(s, step))
  {
    if step.On? {
      SchedStep(s, step.c, step.act);
      FamilyStep(s.core, step.c, s.cpus[step.c], step.act);
    } else {
      ClockStep(s, step);
    }
  }
}
