/** `begin_op`, `end_op` and `log_write` as sections under `log.lock`: reservations never overrun the log,
    a commit runs alone, and no operation sleeps for log space that is there. */
module LogSpace {
  import opened ProcTypes
  import opened Monitor
  import opened Params

  /** `n` is log.lh.n; `used[p]` is history: how many slots of the log the running operation of `p` has taken. */
  datatype Log = Log(outstanding: nat, committing: bool, n: nat, used: map<nat, nat>)

  datatype Update =
    | Begin(p: nat)
    | NewSlot(p: nat)
    | Done(p: nat)
    | StartCommit
    | ClearLog        // log.lh.n = 0 in commit(); nobody reads it until the commit ends
    | EndCommit

  datatype Channel = TheLog

  /** What `begin_op` waits for. */
  predicate Blocked(c: Channel, d: Log) {
    d.committing || d.n + (d.outstanding + 1) * MAXOPBLOCKS > LOGSIZE
  }

  function Apply(u: Update, d: Log): Log {
    match u
    case Begin(p) => d.(outstanding := d.outstanding + 1, used := d.used[p := 0])
    case NewSlot(p) => if p in d.used then d.(n := d.n + 1, used := d.used[p := d.used[p] + 1]) else d
    case Done(p) => d.(outstanding := if d.outstanding > 0 then d.outstanding - 1 else 0, used := d.used - {p})
    case StartCommit => d.(committing := true)
    case ClearLog => d.(n := 0)
    case EndCommit => d.(committing := false)
  }

  /** One pass of the loop of `begin_op`. */
  function BeginOp(p: nat, d: Log): Section<Update, Channel> {
    if Blocked(TheLog, d) then Section([], SleepOn(TheLog)) else Section([Set(Begin(p))], Release)
  }

  /** The first section of `end_op`; the last operation starts the commit. */
  function EndOp(p: nat, d: Log): Section<Update, Channel> {
    if d.outstanding == 1 then Section([Set(Done(p)), Set(StartCommit)], Release)
    else Section([Set(Done(p)), Wake(TheLog)], Release)
  }

  /** The end of the commit and the second section of `end_op`. */
  function CommitEnds(): Section<Update, Channel> {
    Section([Set(ClearLog), Set(EndCommit), Wake(TheLog)], Release)
  }

  /** `log_write`, for a block already in the log and for a new one. */
  function LogWrite(p: nat, absorbed: bool): Section<Update, Channel> {
    if absorbed then Section([], Release) else Section([Set(NewSlot(p))], Release)
  }

  /** A process begins an operation while it has none; an operation takes at most MAXOPBLOCKS slots. */
  predicate Starts(p: nat, d: Log, x: Section<Update, Channel>) {
    || (p !in d.used && x == BeginOp(p, d))
    || (p in d.used && x == EndOp(p, d))
    || (p in d.used && d.n > 0 && x == LogWrite(p, true))
    || (p in d.used && d.used[p] < MAXOPBLOCKS && x == LogWrite(p, false))
    || (d.committing && x == CommitEnds())
  }

  /** The slots reserved and not yet taken by the running operations. */
  ghost function Unused(used: map<nat, nat>): int {
    if used == map[] then 0
    else
      var p :| p in used;
      MAXOPBLOCKS - used[p] + Unused(used - {p})
  }

  ghost predicate Bounded(d: Log) {
    && d.outstanding == |d.used|
    && (forall p :: p in d.used ==> d.used[p] <= MAXOPBLOCKS)
    && (d.committing ==> d.outstanding == 0)
    && d.n + Unused(d.used) <= LOGSIZE
  }

  /** While `log.lock` is free, moreover: every block in the log belongs to a running operation or to a commit. */
  ghost predicate Keeps(d: Log) {
    Bounded(d) && (d.outstanding == 0 && !d.committing ==> d.n == 0)
  }

  ghost const CODE: Code<Log, Update, Channel> := Code(Blocked, Apply, Starts, (d: Log) => Keeps(d))

  ghost const FIT: Log -> bool := (d: Log) => Bounded(d)

  lemma {:induction false} UnusedWithout(used: map<nat, nat>, p: nat)
    requires p in used
    ensures Unused(used) == MAXOPBLOCKS - used[p] + Unused(used - {p})
    decreases |used|
  {
    var q :| q in used && Unused(used) == MAXOPBLOCKS - used[q] + Unused(used - {q});
    if q != p {
      UnusedWithout(used - {q}, p);
      UnusedWithout(used - {p}, q);
      assert used - {q} - {p} == used - {p} - {q};
    }
  }

  lemma {:induction false} UnusedBounds(used: map<nat, nat>)
    requires forall p :: p in used ==> used[p] <= MAXOPBLOCKS
    ensures 0 <= Unused(used) <= MAXOPBLOCKS * |used|
    decreases |used|
  {
    if used != map[] {
      var p :| p in used;
      UnusedWithout(used, p);
      UnusedBounds(used - {p});
    }
  }

  lemma BeginKeeps(p: nat, d: Log)
    requires Bounded(d) && p !in d.used && !Blocked(TheLog, d)
    ensures Bounded(Apply(Begin(p), d))
  {
    var used := d.used[p := 0];
    UnusedWithout(used, p);
    assert used - {p} == d.used;
    UnusedBounds(d.used);
  }

  lemma NewSlotKeeps(p: nat, d: Log)
    requires Bounded(d) && p in d.used && d.used[p] < MAXOPBLOCKS
    ensures Bounded(Apply(NewSlot(p), d)) && d.n < LOGSIZE
  {
    var used := d.used[p := d.used[p] + 1];
    UnusedAfterSlot(d.used, used, p);
    assert used.Keys == d.used.Keys;
    assert |used| == |used.Keys| && |d.used| == |d.used.Keys|;
  }

  lemma UnusedAfterSlot(used: map<nat, nat>, used': map<nat, nat>, p: nat)
    requires p in used && used[p] < MAXOPBLOCKS && used' == used[p := used[p] + 1]
    requires forall q :: q in used ==> used[q] <= MAXOPBLOCKS
    ensures Unused(used') == Unused(used) - 1 && Unused(used) >= 1
  {
    UnusedWithout(used', p);
    UnusedWithout(used, p);
    assert used' - {p} == used - {p};
    UnusedBounds(used - {p});
  }

  lemma DoneKeeps(p: nat, d: Log)
    requires Bounded(d) && p in d.used
    ensures Bounded(Apply(Done(p), d))
  {
    UnusedWithout(d.used, p);
    assert (d.used - {p}).Keys == d.used.Keys - {p};
  }

  lemma ClearKeeps(d: Log)
    requires Bounded(d) && d.committing
    ensures Bounded(Apply(EndCommit, Apply(ClearLog, d)))
  {
    assert d.used == map[];
  }

  lemma OneChannel(owed: iset<Channel>)
    ensures owed - iset{TheLog} == iset{}
  {
    assert forall c: Channel :: c in owed ==> c == TheLog;
  }

  lemma BeginOpDisciplined(p: nat, d: Log)
    requires Keeps(d) && p !in d.used
    ensures Disciplined(CODE, iset{}, d, BeginOp(p, d))
  {
    if !Blocked(TheLog, d) {
      BeginKeeps(p, d);
      assert Owes(CODE, iset{}, d, Apply(Begin(p), d)) == iset{} by {
        assert forall c: Channel :: Blocked(c, d) <==> Blocked(TheLog, d);
      }
      SetThen(CODE, iset{}, d, Begin(p), Section([], Release));
    }
  }

  lemma LogWriteDisciplined(p: nat, d: Log)
    requires Keeps(d) && p in d.used && d.used[p] < MAXOPBLOCKS
    ensures Disciplined(CODE, iset{}, d, LogWrite(p, false))
  {
    NewSlotKeeps(p, d);
    assert Owes(CODE, iset{}, d, Apply(NewSlot(p), d)) == iset{};
    SetThen(CODE, iset{}, d, NewSlot(p), Section([], Release));
  }

  lemma EndOpDisciplined(p: nat, d: Log)
    requires Keeps(d) && p in d.used
    ensures Disciplined(CODE, iset{}, d, EndOp(p, d))
  {
    DoneKeeps(p, d);
    var d1 := Apply(Done(p), d);
    var owed := Owes(CODE, iset{}, d, d1);
    if d.outstanding == 1 {
      assert Owes(CODE, owed, d1, Apply(StartCommit, d1)) == iset{};
      SetThen(CODE, owed, d1, StartCommit, Section([], Release));
      SetThen(CODE, iset{}, d, Done(p), Section([Set(StartCommit)], Release));
    } else {
      OneChannel(owed);
      WakeThen(CODE, owed, d1, TheLog, Section([], Release));
      SetThen(CODE, iset{}, d, Done(p), Section([Wake(TheLog)], Release));
    }
  }

  lemma CommitEndsDisciplined(d: Log)
    requires Keeps(d) && d.committing
    ensures Disciplined(CODE, iset{}, d, CommitEnds())
  {
    ClearKeeps(d);
    var d1 := Apply(ClearLog, d);
    var d2 := Apply(EndCommit, d1);
    var owed1 := Owes(CODE, iset{}, d, d1);
    var owed2 := Owes(CODE, owed1, d1, d2);
    OneChannel(owed2);
    WakeThen(CODE, owed2, d2, TheLog, Section([], Release));
    SetThen(CODE, owed1, d1, EndCommit, Section([Wake(TheLog)], Release));
    SetThen(CODE, iset{}, d, ClearLog, Section([Set(EndCommit), Wake(TheLog)], Release));
  }

  lemma SectionsDisciplined()
    ensures AllDisciplined(CODE)
  {
    forall p: nat, d: Log, x: Section<Update, Channel> | Keeps(d) && Starts(p, d, x)
      ensures Disciplined(CODE, iset{}, d, x)
    {
      if p !in d.used && x == BeginOp(p, d) {
        BeginOpDisciplined(p, d);
      } else if p in d.used && x == EndOp(p, d) {
        EndOpDisciplined(p, d);
      } else if p in d.used && d.used[p] < MAXOPBLOCKS && x == LogWrite(p, false) {
        LogWriteDisciplined(p, d);
      } else if d.committing && x == CommitEnds() {
        CommitEndsDisciplined(d);
      }
    }
  }

  lemma SectionsSteady()
    ensures AllSteady(CODE, FIT)
  {
    forall p: nat, d: Log, x: Section<Update, Channel> | Keeps(d) && Starts(p, d, x)
      ensures Steady(CODE, FIT, d, x)
    {
      if p !in d.used && x == BeginOp(p, d) {
        if !Blocked(TheLog, d) {
          BeginKeeps(p, d);
          SteadySet(CODE, FIT, d, Begin(p), Section([], Release));
        }
      } else if p in d.used && x == EndOp(p, d) {
        DoneKeeps(p, d);
        var d1 := Apply(Done(p), d);
        if d.outstanding == 1 {
          SteadySet(CODE, FIT, d1, StartCommit, Section([], Release));
          SteadySet(CODE, FIT, d, Done(p), Section([Set(StartCommit)], Release));
        } else {
          SteadyWake(CODE, FIT, d1, TheLog, Section([], Release));
          SteadySet(CODE, FIT, d, Done(p), Section([Wake(TheLog)], Release));
        }
      } else if p in d.used && d.used[p] < MAXOPBLOCKS && x == LogWrite(p, false) {
        NewSlotKeeps(p, d);
        SteadySet(CODE, FIT, d, NewSlot(p), Section([], Release));
      } else if d.committing && x == CommitEnds() {
        CommitEndsSteady(d);
      }
    }
  }

  lemma CommitEndsSteady(d: Log)
    requires Bounded(d) && d.committing
    ensures Steady(CODE, FIT, d, CommitEnds())
  {
    ClearKeeps(d);
    var d1 := Apply(ClearLog, d);
    var d2 := Apply(EndCommit, d1);
    SteadyWake(CODE, FIT, d2, TheLog, Section([], Release));
    SteadySet(CODE, FIT, d1, EndCommit, Section([Wake(TheLog)], Release));
    SteadySet(CODE, FIT, d, ClearLog, Section([Set(EndCommit), Wake(TheLog)], Release));
  }

  /** An operation is let in exactly while no commit runs and its ten blocks fit beside the logged blocks and ten for
      every running operation; one that is not sleeps and changes nothing. */
  lemma BeginOpEffect(p: nat, d: Log)
    ensures var x := BeginOp(p, d);
            if d.committing || d.n + d.outstanding * 10 + 10 > 30 then
              x.end == SleepOn(TheLog) && Outcome(CODE, d, x) == d
            else
              x.end == Release && Outcome(CODE, d, x) == Log(d.outstanding + 1, false, d.n, d.used[p := 0])
  {
    if !Blocked(TheLog, d) {
      OutcomeSet(CODE, d, Begin(p), Section([], Release));
    }
  }

  /** The last operation to end, and no other, leaves a commit under way. */
  lemma EndOpEffect(p: nat, d: Log)
    requires Keeps(d) && p in d.used
    ensures EndOp(p, d).end == Release
    ensures Outcome(CODE, d, EndOp(p, d)) == Log(d.outstanding - 1, d.outstanding == 1, d.n, d.used - {p})
  {
    assert p in d.used.Keys && d.outstanding == |d.used.Keys|;
    if d.outstanding == 1 {
      OutcomeSet(CODE, Apply(Done(p), d), StartCommit, Section([], Release));
      OutcomeSet(CODE, d, Done(p), Section([Set(StartCommit)], Release));
    } else {
      OutcomeSetWake(CODE, d, Done(p), TheLog, Release);
    }
  }

  /** A block new to the log takes a slot, one already there takes none, and the end of a commit empties the log. */
  lemma LogEffects(p: nat, d: Log)
    ensures p in d.used ==>
              Outcome(CODE, d, LogWrite(p, false)) == d.(n := d.n + 1, used := d.used[p := d.used[p] + 1])
    ensures Outcome(CODE, d, LogWrite(p, true)) == d
    ensures Outcome(CODE, d, CommitEnds()) == Log(d.outstanding, false, 0, d.used)
  {
    OutcomeSet(CODE, d, NewSlot(p), Section([], Release));
    OutcomeSetWake(CODE, Apply(ClearLog, d), EndCommit, TheLog, Release);
    OutcomeSet(CODE, d, ClearLog, Section([Set(EndCommit), Wake(TheLog)], Release));
  }

  /** In every run, while `log.lock` is free: a commit runs with no operation outstanding, and the log holds blocks
      only while an operation or a commit runs. The taken and the reserved slots fit the log, so an operation that
      needs a new slot finds one, and a process asleep in `begin_op` is waiting for a commit or for log space that
      is still reserved. */
  lemma LogSafety(states: seq<State<Log, Update, Channel>>, steps: seq<Step<Update, Channel>>, n: nat)
    requires IsRun(CODE, states, steps) && n < |states| && states[n].lk == None
    ensures var d := states[n].data;
            && d.outstanding == |d.used| && (d.committing ==> d.outstanding == 0)
            && (d.outstanding == 0 && !d.committing ==> d.n == 0)
            && d.n + Unused(d.used) <= LOGSIZE
            && (forall p :: p in d.used && d.used[p] < MAXOPBLOCKS ==> d.n < LOGSIZE)
            && (forall p :: 0 <= p < |states[n].locs| && states[n].locs[p].Asleep? ==>
                  d.committing || d.n + (d.outstanding + 1) * MAXOPBLOCKS > LOGSIZE)
  {
    SectionsDisciplined();
    NoLostWakeup(CODE, states, steps, n);
    var d := states[n].data;
    forall p | p in d.used && d.used[p] < MAXOPBLOCKS
      ensures d.n < LOGSIZE
    {
      NewSlotKeeps(p, d);
    }
  }

  // ---------- The size test of log_write ----------

  /** `log_write` panics with "too big a transaction". */
  predicate TooBig(d: Log, size: int) {
    d.n >= LOGSIZE || d.n >= size - 1
  }

  type LogState = State<Log, Update, Channel>

  /** No `log_write` of the run so far has met the panic. */
  ghost predicate NoPanicYet(size: int, states: seq<LogState>, steps: seq<Step<Update, Channel>>)
    requires |states| == |steps| + 1
  {
    forall i :: 0 <= i < |steps| && steps[i].Enter? && IsWrite(steps[i].p, steps[i].section) ==>
      !TooBig(states[i].data, size)
  }

  predicate IsWrite(p: nat, x: Section<Update, Channel>) {
    x == LogWrite(p, true) || x == LogWrite(p, false)
  }

  /** Some run without a panic ends in `s`, when the on-disk log has `size` blocks. */
  ghost predicate Survives(size: int, s: LogState) {
    exists states: seq<LogState>, steps ::
      IsRun(CODE, states, steps) && states[|steps|] == s && NoPanicYet(size, states, steps)
  }

  lemma SurviveInitial(size: int, s: LogState)
    requires Initial(CODE, s)
    ensures Survives(size, s)
  {
    var states: seq<LogState>, steps: seq<Step<Update, Channel>> := [s], [];
    assert IsRun(CODE, states, steps) && states[|steps|] == s && NoPanicYet(size, states, steps);
  }

  lemma SurviveNext(size: int, s: LogState, step: Step<Update, Channel>)
    requires Survives(size, s) && Enabled(CODE, s, step)
    requires step.Enter? && IsWrite(step.p, step.section) ==> !TooBig(s.data, size)
    ensures Survives(size, Next(CODE, s, step))
  {
    var states, steps :| IsRun(CODE, states, steps) && states[|steps|] == s && NoPanicYet(size, states, steps);
    ExtendRun(CODE, states, steps, step);
    var states', steps' := states + [Next(CODE, s, step)], steps + [step];
    assert NoPanicYet(size, states', steps') by {
      forall i | 0 <= i < |steps'| && steps'[i].Enter? && IsWrite(steps'[i].p, steps'[i].section)
        ensures !TooBig(states'[i].data, size)
      {
        if i < |steps| {
          assert steps'[i] == steps[i] && states'[i] == states[i];
        }
      }
    }
  }

  lemma SurvivesVisited(size: int, s: LogState)
    requires Survives(size, s)
    ensures Visited(CODE, s)
  {
  }

  /** Some run of three processes without a panic passes through the data `d` with nobody in a section. */
  ghost predicate Reachable(size: int, d: Log) {
    Survives(size, Resting(d))
  }

  ghost function Resting(d: Log): LogState {
    State(d, [Outside, Outside, Outside], None, None, iset{})
  }

  /** A section that makes one update, run alone. */
  lemma ReachUpdate(size: int, d: Log, p: nat, u: Update)
    requires Reachable(size, d) && p < 3 && Starts(p, d, Section([Set(u)], Release))
    requires Blocked(TheLog, Apply(u, d)) || !Blocked(TheLog, d)
    requires u.NewSlot? ==> !TooBig(d, size)
    ensures Reachable(size, Apply(u, d))
  {
    var x := Section([Set(u)], Release);
    var s0 := Resting(d);
    SurviveNext(size, s0, Enter(p, x));
    var s1 := Next(CODE, s0, Enter(p, x));
    SurviveNext(size, s1, Do(p));
    var s2 := Next(CODE, s1, Do(p));
    assert Owes(CODE, iset{}, d, Apply(u, d)) == iset{};
    SurviveNext(size, s2, Finish(p));
    assert Next(CODE, s2, Finish(p)).locs == Resting(Apply(u, d)).locs;
  }

  /** The data once processes 0, 1 and 2 have begun and written `a`, `b` and `c` blocks. */
  function Written(a: nat, b: nat, c: nat): Log {
    Log(3, false, a + b + c, map[0 := a, 1 := b, 2 := c])
  }

  lemma ReachBegun(size: int)
    ensures Reachable(size, Written(0, 0, 0))
  {
    var d0 := Log(0, false, 0, map[]);
    SurviveInitial(size, Resting(d0));
    ReachUpdate(size, d0, 0, Begin(0));
    var d1 := Apply(Begin(0), d0);
    ReachUpdate(size, d1, 1, Begin(1));
    var d2 := Apply(Begin(1), d1);
    ReachUpdate(size, d2, 2, Begin(2));
    assert Apply(Begin(2), d2) == Written(0, 0, 0);
  }

  lemma WrittenNext(a: nat, b: nat, c: nat, p: nat)
    requires p < 3
    ensures Apply(NewSlot(p), Written(a, b, c)) ==
            Written(if p == 0 then a + 1 else a, if p == 1 then b + 1 else b, if p == 2 then c + 1 else c)
  {
    var used := map[0 := a, 1 := b, 2 := c];
    if p == 0 {
      assert used[0 := a + 1] == map[0 := a + 1, 1 := b, 2 := c];
    } else if p == 1 {
      assert used[1 := b + 1] == map[0 := a, 1 := b + 1, 2 := c];
    } else {
      assert used[2 := c + 1] == map[0 := a, 1 := b, 2 := c + 1];
    }
  }

  lemma ReachSlot(size: int, a: nat, b: nat, c: nat, p: nat)
    requires Reachable(size, Written(a, b, c)) && p < 3 && Written(a, b, c).used[p] < MAXOPBLOCKS
    requires !TooBig(Written(a, b, c), size)
    ensures Reachable(size, Written(if p == 0 then a + 1 else a, if p == 1 then b + 1 else b,
                                    if p == 2 then c + 1 else c))
  {
    var d := Written(a, b, c);
    WrittenNext(a, b, c, p);
    ReachUpdate(size, d, p, NewSlot(p));
  }

  /** Three operations can write any numbers of blocks within their bounds, as far as the log goes. */
  lemma {:induction false} ReachWritten(size: int, a: nat, b: nat, c: nat)
    requires a <= MAXOPBLOCKS && b <= MAXOPBLOCKS && c <= MAXOPBLOCKS && (a + b + c > 0 ==> a + b + c <= size - 1)
    ensures Reachable(size, Written(a, b, c))
    decreases a + b + c
  {
    if a > 0 {
      ReachWritten(size, a - 1, b, c);
      ReachSlot(size, a - 1, b, c, 0);
    } else if b > 0 {
      ReachWritten(size, a, b - 1, c);
      ReachSlot(size, a, b - 1, c, 1);
    } else if c > 0 {
      ReachWritten(size, a, b, c - 1);
      ReachSlot(size, a, b, c - 1, 2);
    } else {
      ReachBegun(size);
    }
  }

  /** The log holds n blocks, the first operations having written all they may. */
  function Filled(n: nat): Log
    requires n <= LOGSIZE
  {
    if n <= 10 then Written(n, 0, 0) else if n <= 20 then Written(10, n - 10, 0) else Written(10, 10, n - 20)
  }

  lemma ReachFilled(size: int, n: nat)
    requires n <= LOGSIZE && (n > 0 ==> n <= size - 1)
    ensures Reachable(size, Filled(n)) && Filled(n).n == n && 2 in Filled(n).used
    ensures n < LOGSIZE ==> Filled(n).used[2] < MAXOPBLOCKS
  {
    if n <= 10 {
      ReachWritten(size, n, 0, 0);
    } else if n <= 20 {
      ReachWritten(size, 10, n - 10, 0);
    } else {
      ReachWritten(size, 10, 10, n - 20);
    }
  }

  /** Process `p`, outside `log.lock`, is at the size test of `log_write`, which reads log.lh.n without the lock. */
  ghost predicate AtTest(s: State<Log, Update, Channel>, p: nat, absorbed: bool) {
    p < |s.locs| && s.locs[p].Outside? && Starts(p, s.data, LogWrite(p, absorbed))
  }

  lemma {:induction false} AllSpent(used: map<nat, nat>, p: nat)
    requires p in used && Unused(used) <= 0 && forall q :: q in used ==> used[q] <= MAXOPBLOCKS
    ensures used[p] == MAXOPBLOCKS
  {
    UnusedWithout(used, p);
    UnusedBounds(used - {p});
  }

  lemma VisitedBounded(s: State<Log, Update, Channel>)
    requires Visited(CODE, s)
    ensures Bounded(s.data)
  {
    var states, steps :| IsRun(CODE, states, steps) && states[|steps|] == s;
    SectionsDisciplined();
    SectionsSteady();
    AlwaysFit(CODE, FIT, states, steps, |steps|);
  }

  /** With any number of processes and at any point of any run without a panic so far: a `log_write`, of a new block or
      one already in the log, by an operation that has a slot left never panics, exactly when the on-disk log, header
      included, has more than LOGSIZE blocks. mkfs makes it LOGSIZE blocks. */
  lemma PanicFreeWhenLogIsLarger(size: int)
    ensures size > LOGSIZE <==>
            forall s, p: nat, absorbed ::
              Survives(size, s) && AtTest(s, p, absorbed) && s.data.used[p] < MAXOPBLOCKS ==> !TooBig(s.data, size)
  {
    if size > LOGSIZE {
      forall s, p: nat, absorbed | Survives(size, s) && AtTest(s, p, absorbed) && s.data.used[p] < MAXOPBLOCKS
        ensures !TooBig(s.data, size)
      {
        SurvivesVisited(size, s);
        VisitedBounded(s);
        NewSlotKeeps(p, s.data);
      }
    } else {
      var n: nat := if size >= 1 then size - 1 else 0;
      ReachFilled(size, n);
      assert AtTest(Resting(Filled(n)), 2, false) && TooBig(Filled(n), size);
    }
  }

  /** On such a log, a `log_write` panics exactly when the log is full. That takes a block already in the log, and every
      running operation, this one included, to have used up its slots. */
  lemma PanicMeansFull(s: State<Log, Update, Channel>, p: nat, absorbed: bool, size: int)
    requires Visited(CODE, s) && AtTest(s, p, absorbed) && size > LOGSIZE
    ensures TooBig(s.data, size) <==> s.data.n == LOGSIZE
    ensures TooBig(s.data, size) ==> absorbed && forall q :: q in s.data.used ==> s.data.used[q] == MAXOPBLOCKS
  {
    VisitedBounded(s);
    UnusedBounds(s.data.used);
    if TooBig(s.data, size) {
      forall q | q in s.data.used
        ensures s.data.used[q] == MAXOPBLOCKS
      {
        AllSpent(s.data.used, q);
      }
    }
  }

  /** Whatever the size of the on-disk log, some `log_write` is the first to panic in some run; it is one of a block
      already in the log, unless not even one block fits. */
  lemma FullLogPanics(size: int)
    ensures exists s, p: nat, absorbed ::
              Survives(size, s) && AtTest(s, p, absorbed) && TooBig(s.data, size) && (size >= 2 ==> absorbed)
  {
    var n: nat := if size > LOGSIZE then LOGSIZE else if size >= 1 then size - 1 else 0;
    ReachFilled(size, n);
    assert AtTest(Resting(Filled(n)), 2, n > 0) && TooBig(Filled(n), size);
  }
}
