/** The table scans of proc.c and trap.c: each loop over `ptable.proc`, as a method over the table it
    rewrites, and the function of the old table it computes. */
module ProcTable {
  import opened ProcTypes

  // ---------- What the scans compute ----------

  /** `wakeup1`: every sleeper on `chan` becomes runnable. */
  function Wakeup(procs: seq<Proc>, chan: Chan): (r: seq<Proc>)
    ensures |r| == |procs|
    ensures forall i :: 0 <= i < |procs| ==> r[i] == Woken(procs[i], chan)
  {
    seq(|procs|, i requires 0 <= i < |procs| => Woken(procs[i], chan))
  }

  function Woken(p: Proc, chan: Chan): Proc {
    if p.state == Sleeping && p.chan == Some(chan) then p.(state := Runnable) else p
  }

  function Adopted(p: Proc, cur: nat, init: nat): Proc {
    if p.parent == Some(cur) then p.(parent := Some(init)) else p
  }

  ghost predicate HasZombieChild(procs: seq<Proc>, cur: nat) {
    exists i :: 0 <= i < |procs| && procs[i].parent == Some(cur) && procs[i].state == Zombie
  }

  ghost predicate HasChild(procs: seq<Proc>, cur: nat) {
    exists i :: 0 <= i < |procs| && procs[i].parent == Some(cur)
  }

  /** The abandonment scan of `exit`: the children of `cur` go to `init`, which is woken when one is a zombie. */
  ghost function Abandon(procs: seq<Proc>, cur: nat, init: nat): (r: seq<Proc>)
    ensures |r| == |procs|
    ensures forall i :: 0 <= i < |procs| ==>
              r[i] == var p := Adopted(procs[i], cur, init);
                      if HasZombieChild(procs, cur) then Woken(p, OnProc(init)) else p
  {
    seq(|procs|, i requires 0 <= i < |procs| =>
      var p := Adopted(procs[i], cur, init);
      if HasZombieChild(procs, cur) then Woken(p, OnProc(init)) else p)
  }

  ghost function WakeParent(procs: seq<Proc>, cur: nat): (r: seq<Proc>)
    requires cur < |procs|
    ensures |r| == |procs|
  {
    match procs[cur].parent
    case Some(parent) => Wakeup(procs, OnProc(parent))
    case None => procs
  }

  /** The table after the locked part of `exit`. */
  ghost function Exited(procs: seq<Proc>, cur: nat, init: nat, ticks: nat): (r: seq<Proc>)
    requires cur < |procs|
    ensures |r| == |procs|
  {
    var abandoned := Abandon(WakeParent(procs, cur), cur, init);
    abandoned[cur := abandoned[cur].(etime := ticks, state := Zombie)]
  }

  /** `p` is the first zombie child of `cur`. */
  ghost predicate FirstZombieChild(procs: seq<Proc>, cur: nat, z: nat) {
    && z < |procs|
    && procs[z].parent == Some(cur) && procs[z].state == Zombie
    && forall i :: 0 <= i < z ==> !(procs[i].parent == Some(cur) && procs[i].state == Zombie)
  }

  ghost predicate FirstWithPid(procs: seq<Proc>, pid: int, k: nat) {
    k < |procs| && procs[k].pid == pid && forall i :: 0 <= i < k ==> procs[i].pid != pid
  }

  ghost predicate FirstUnused(procs: seq<Proc>, k: nat) {
    k < |procs| && procs[k].state == Unused && forall i :: 0 <= i < k ==> procs[i].state != Unused
  }

  function Killed(p: Proc): Proc {
    p.(killed := true, state := if p.state == Sleeping then Runnable else p.state)
  }

  function Reaped(p: Proc): Proc {
    p.(stack := false, pid := 0, parent := None, killed := false, state := Unused)
  }

  /** The oldest runnable slot, the lowest slot among equals. */
  ghost predicate Oldest(procs: seq<Proc>, k: nat) {
    && k < |procs| && procs[k].state == Runnable
    && (forall i :: 0 <= i < k && procs[i].state == Runnable ==> procs[k].ctime < procs[i].ctime)
    && (forall i :: k < i < |procs| && procs[i].state == Runnable ==> procs[k].ctime <= procs[i].ctime)
  }

  /** One pass of the timer's accounting over one slot. */
  function Accounted(p: Proc): Proc {
    match p.state
    case Running => p.(rtime := p.rtime + 1)
    case Runnable => p.(retime := p.retime + 1)
    case Sleeping => p.(stime := p.stime + 1)
    case _ => p
  }

  function Account(procs: seq<Proc>): (r: seq<Proc>)
    ensures |r| == |procs|
    ensures forall i :: 0 <= i < |procs| ==> r[i] == Accounted(procs[i])
  {
    seq(|procs|, i requires 0 <= i < |procs| => Accounted(procs[i]))
  }

  // ---------- The scans ----------

  class Table {
    var proc: seq<Proc>

    constructor (slots: seq<Proc>)
      ensures proc == slots
    {
      proc := slots;
    }

    method Wakeup1(chan: Chan)
      modifies this
      ensures proc == Wakeup(old(proc), chan)
      ensures forall i :: 0 <= i < |proc| ==>
                var was := old(proc)[i];
                proc[i] == if was.state == Sleeping && was.chan == Some(chan) then was.(state := Runnable) else was
    {
      for i := 0 to |proc|
        invariant |proc| == |old(proc)|
        invariant forall j :: 0 <= j < i ==> proc[j] == Woken(old(proc)[j], chan)
        invariant forall j :: i <= j < |proc| ==> proc[j] == old(proc)[j]
      {
        if proc[i].state == Sleeping && proc[i].chan == Some(chan) {
          proc := proc[i := proc[i].(state := Runnable)];
        }
      }
      assert proc == Wakeup(old(proc), chan);
    }

    method AbandonChildren(cur: nat, init: nat)
      modifies this
      ensures proc == Abandon(old(proc), cur, init)
      ensures forall i :: 0 <= i < |proc| ==>
                var was := old(proc)[i];
                && proc[i] == was.(parent := proc[i].parent, state := proc[i].state)
                && proc[i].parent == (if was.parent == Some(cur) then Some(init) else was.parent)
                && proc[i].state ==
                   if was.state == Sleeping && was.chan == Some(OnProc(init)) && HasZombieChild(old(proc), cur)
                   then Runnable else was.state
    {
      ghost var before := proc;
      ghost var woken := false;
      var i := 0;
      while i < |proc|
        invariant |proc| == |before| && i <= |proc|
        invariant woken <==> exists j :: 0 <= j < i && before[j].parent == Some(cur) && before[j].state == Zombie
        invariant forall j :: 0 <= j < |proc| ==>
                    var p := if j < i then Adopted(before[j], cur, init) else before[j];
                    proc[j] == if woken then Woken(p, OnProc(init)) else p
      {
        assert proc[i].state == Zombie <==> before[i].state == Zombie;
        if proc[i].parent == Some(cur) {
          proc := proc[i := proc[i].(parent := Some(init))];
          if proc[i].state == Zombie {
            Wakeup1(OnProc(init));
            woken := true;
          }
        }
        i := i + 1;
      }
      assert proc == Abandon(before, cur, init);
    }

    /** The locked part of `exit`, up to `sched`: the process is a zombie that ended now, its children are `init`'s, and
        of the sleepers just its parent in `wait` is woken, and `init` in `wait` when a child is a zombie already. */
    method Exit(cur: nat, init: nat, ticks: nat)
      requires cur < |proc|
      modifies this
      ensures proc == Exited(old(proc), cur, init, ticks)
      ensures proc[cur].state == Zombie && proc[cur].etime == ticks
      ensures forall i :: 0 <= i < |proc| ==>
                var was := old(proc)[i];
                && proc[i] == was.(parent := proc[i].parent, state := proc[i].state, etime := proc[i].etime)
                && proc[i].parent == (if was.parent == Some(cur) then Some(init) else was.parent)
                && (i != cur ==> proc[i].etime == was.etime)
                && (i != cur ==>
                      proc[i].state ==
                      if was.state == Sleeping && was.chan.Some? && was.chan.value.OnProc?
                         && (old(proc)[cur].parent == Some(was.chan.value.slot)
                             || (was.chan.value.slot == init && HasZombieChild(old(proc), cur)))
                      then Runnable else was.state)
    {
      if proc[cur].parent.Some? {
        Wakeup1(OnProc(proc[cur].parent.value));
      }
      assert HasZombieChild(proc, cur) <==> HasZombieChild(old(proc), cur) by {
        assert forall i :: 0 <= i < |proc| ==>
            proc[i].parent == old(proc)[i].parent && (proc[i].state == Zombie <==> old(proc)[i].state == Zombie);
      }
      AbandonChildren(cur, init);
      proc := proc[cur := proc[cur].(etime := ticks, state := Zombie)];
    }

    /** The child scan of `wait` and `waitx`: reaps the first zombie child, or says whether there is a child.
        `wtime` and `rtime` are what `waitx` stores through its pointers. */
    method ReapChild(cur: nat) returns (reaped: Option<nat>, haveKids: bool, wtime: int, rtime: int)
      modifies this
      ensures reaped.Some? ==>
                && FirstZombieChild(old(proc), cur, reaped.value)
                && proc == old(proc)[reaped.value := Reaped(old(proc)[reaped.value])]
                && var z := old(proc)[reaped.value];
                   rtime == z.rtime && wtime ==
                     if z.etime - z.ctime - z.rtime < 0 then 0 else z.etime - z.ctime - z.rtime
      ensures reaped.Some? ==>
                var z, slot := old(proc)[reaped.value], proc[reaped.value];
                && slot.state == Unused && slot.pid == 0 && slot.parent == None && !slot.killed && !slot.stack
                && slot == z.(state := Unused, pid := 0, parent := None, killed := false, stack := false)
      ensures reaped.None? ==> !HasZombieChild(proc, cur) && proc == old(proc)
      ensures reaped.None? ==> (haveKids <==> HasChild(proc, cur))
    {
      haveKids := false;
      wtime, rtime := 0, 0;
      for i := 0 to |proc|
        invariant proc == old(proc)
        invariant haveKids <==> exists j :: 0 <= j < i && proc[j].parent == Some(cur)
        invariant forall j :: 0 <= j < i ==> !(proc[j].parent == Some(cur) && proc[j].state == Zombie)
      {
        if proc[i].parent == Some(cur) {
          haveKids := true;
          if proc[i].state == Zombie {
            rtime := proc[i].rtime;
            wtime := proc[i].etime - proc[i].ctime - rtime;
            if wtime < 0 {
              wtime := 0;
            }
            proc := proc[i := Reaped(proc[i])];
            return Some(i), true, wtime, rtime;
          }
        }
      }
      reaped := None;
    }

    /** `kill`: the first slot with the pid is marked, and is not asleep afterwards. */
    method Kill(pid: int) returns (result: int)
      modifies this
      ensures result == 0 ==> exists k: nat ::
                FirstWithPid(old(proc), pid, k) && proc == old(proc)[k := Killed(old(proc)[k])]
      ensures result == 0 ==> |proc| == |old(proc)| && exists k: nat ::
                && FirstWithPid(old(proc), pid, k) && proc[k].killed
                && proc[k].state == (if old(proc)[k].state == Sleeping then Runnable else old(proc)[k].state)
                && proc[k] == old(proc)[k].(killed := true, state := proc[k].state)
                && forall i :: 0 <= i < |proc| && i != k ==> proc[i] == old(proc)[i]
      ensures result != 0 ==> result == -1 && proc == old(proc) && forall i :: 0 <= i < |proc| ==> proc[i].pid != pid
    {
      for i := 0 to |proc|
        invariant proc == old(proc)
        invariant forall j :: 0 <= j < i ==> proc[j].pid != pid
      {
        if proc[i].pid == pid {
          assert FirstWithPid(proc, pid, i);
          proc := proc[i := proc[i].(killed := true)];
          if proc[i].state == Sleeping {
            proc := proc[i := proc[i].(state := Runnable)];
          }
          assert proc == old(proc)[i := Killed(old(proc)[i])];
          return 0;
        }
      }
      result := -1;
    }

    /** The locked part of `allocproc`. */
    method AllocSlot(pid: int) returns (slot: Option<nat>)
      modifies this
      ensures slot.Some? ==>
                && FirstUnused(old(proc), slot.value)
                && proc == old(proc)[slot.value := old(proc)[slot.value].(state := Embryo, pid := pid)]
      ensures slot.None? ==> proc == old(proc) && forall i :: 0 <= i < |proc| ==> proc[i].state != Unused
    {
      for i := 0 to |proc|
        invariant proc == old(proc)
        invariant forall j :: 0 <= j < i ==> proc[j].state != Unused
      {
        if proc[i].state == Unused {
          proc := proc[i := proc[i].(state := Embryo, pid := pid)];
          return Some(i);
        }
      }
      slot := None;
    }

    /** The FCFS branch of `scheduler`. */
    method PickOldest() returns (best: Option<nat>)
      ensures best.Some? ==> Oldest(proc, best.value)
      ensures best.Some? ==>
                && best.value < |proc| && proc[best.value].state == Runnable
                && forall i :: 0 <= i < |proc| && proc[i].state == Runnable ==>
                     proc[best.value].ctime < proc[i].ctime
                     || (proc[best.value].ctime == proc[i].ctime && best.value <= i)
      ensures best.None? <==> forall i :: 0 <= i < |proc| ==> proc[i].state != Runnable
    {
      best := None;
      for i := 0 to |proc|
        invariant best.None? ==> forall j :: 0 <= j < i ==> proc[j].state != Runnable
        invariant best.Some? ==> best.value < i && Oldest(proc[..i], best.value)
      {
        if proc[i].state == Runnable {
          if best.None? || proc[i].ctime < proc[best.value].ctime {
            best := Some(i);
          }
        }
      }
      assert proc[..|proc|] == proc;
    }

    /** The accounting loop of the timer interrupt. */
    method AccountTick()
      modifies this
      ensures proc == Account(old(proc))
      ensures forall i :: 0 <= i < |proc| ==>
                var was := old(proc)[i];
                && proc[i] == was.(rtime := proc[i].rtime, retime := proc[i].retime, stime := proc[i].stime)
                && proc[i].rtime == (if was.state == Running then was.rtime + 1 else was.rtime)
                && proc[i].retime == (if was.state == Runnable then was.retime + 1 else was.retime)
                && proc[i].stime == (if was.state == Sleeping then was.stime + 1 else was.stime)
    {
      for i := 0 to |proc|
        invariant |proc| == |old(proc)|
        invariant forall j :: 0 <= j < i ==> proc[j] == Accounted(old(proc)[j])
        invariant forall j :: i <= j < |proc| ==> proc[j] == old(proc)[j]
      {
        match proc[i].state {
          case Running => proc := proc[i := proc[i].(rtime := proc[i].rtime + 1)];
          case Runnable => proc := proc[i := proc[i].(retime := proc[i].retime + 1)];
          case Sleeping => proc := proc[i := proc[i].(stime := proc[i].stime + 1)];
          case _ =>
        }
      }
      assert proc == Account(old(proc));
    }
  }
}
