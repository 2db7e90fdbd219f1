/** The process table entry of proc.h. */
module ProcTypes {

  datatype Option<+T> = None | Some(value: T)

  datatype ProcState = Unused | Embryo | Sleeping | Runnable | Running | Zombie

  /** A sleep channel: the address of a process slot (`wait`), or some other kernel address. */
  datatype Chan = OnProc(slot: nat) | OnAddr(address: nat)

  /** One slot of `ptable.proc`; a pointer to a process is its slot number.
      `stack` says whether `kstack` and `pgdir` are allocated. */
  datatype Proc = Proc(state: ProcState, pid: int, parent: Option<nat>, chan: Option<Chan>, killed: bool,
                       stack: bool, ctime: nat, etime: nat, rtime: nat, stime: nat, retime: nat,
                       tickets: int, originalTickets: int)
}
