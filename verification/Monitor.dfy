/** `sleep` and `wakeup` around a spinlock `lk`, in every interleaving: `sleep` takes `ptable.lock` before it
    drops `lk`, and a waker holds `lk` while it takes `ptable.lock`.

    The machine is generic in the data that `lk` protects. A critical section is a list of actions, updates of
    the data and calls of `wakeup`, that ends by releasing `lk` or by sleeping on a channel. */
module Monitor {
  import opened ProcTypes

  datatype Action<T, C> = Set(update: T) | Wake(chan: C)

  datatype Ending<C> = Release | SleepOn(chan: C)

  datatype Section<T, C> = Section(todo: seq<Action<T, C>>, end: Ending<C>)

  /** `blocked(c, d)`: a process waiting on `c` has nothing to do while the data is `d`.
      `apply` performs an update. `starts(p, d, x)`: process `p`, on acquiring `lk`, may run section `x`.
      `keeps` is an invariant of the data while `lk` is free. */
  datatype Code<!D, !T, !C> = Code(blocked: (C, D) -> bool, apply: (T, D) -> D,
                                   starts: (nat, D, Section<T, C>) -> bool, keeps: D -> bool)

  /** Where a process is. */
  datatype Location<T, C> =
    | Outside
    | Inside(rest: Section<T, C>)                       // holds lk
    | Waking(chan: C, rest: Section<T, C>)              // holds lk, in wakeup() before acquire(&ptable.lock)
    | WakingLocked(chan: C, rest: Section<T, C>)        // holds both locks, in wakeup1()
    | GoingToSleep(chan: C)                             // holds lk, in sleep() before acquire(&ptable.lock)
    | SleepLocked(chan: C)                              // holds both locks, before release(lk)
    | Falling(chan: C)                                  // holds ptable.lock, state not yet SLEEPING
    | Asleep(chan: C)                                   // SLEEPING
    | Ready                                             // RUNNABLE again
    | Rising                                            // switched to, holds ptable.lock
    | Returning                                         // before acquire(lk) at the end of sleep()
  {
    predicate HoldsLk() {
      Inside? || Waking? || WakingLocked? || GoingToSleep? || SleepLocked?
    }

    predicate HoldsTable() {
      WakingLocked? || SleepLocked? || Falling? || Rising?
    }
  }

  /** `table` is the holder of `ptable.lock`; an index past the processes stands for any other code.
      `owed` is history: the channels that the holder of `lk` has unblocked and not yet woken. */
  datatype State<D, T, !C> = State(data: D, locs: seq<Location<T, C>>, lk: Option<nat>, table: Option<nat>,
                                   owed: iset<C>)

  datatype Step<T, C> =
    | Enter(p: nat, section: Section<T, C>) | Do(p: nat) | Finish(p: nat) | TakeTable(p: nat) | WakeAll(p: nat)
    | DropLock(p: nat) | Fall(p: nat) | KillSleeper(p: nat) | Rise(p: nat) | Back(p: nat)
    | OthersTake | OthersRelease

  ghost predicate Enabled<D, T, C>(code: Code<D, T, C>, s: State<D, T, C>, step: Step<T, C>) {
    match step
    case Enter(p, x) =>
      p < |s.locs| && (s.locs[p].Outside? || s.locs[p].Returning?) && s.lk == None && code.starts(p, s.data, x)
    case Do(p) => p < |s.locs| && s.locs[p].Inside? && |s.locs[p].rest.todo| > 0
    case Finish(p) => p < |s.locs| && s.locs[p].Inside? && s.locs[p].rest.todo == []
    case TakeTable(p) => p < |s.locs| && (s.locs[p].Waking? || s.locs[p].GoingToSleep?) && s.table == None
    case WakeAll(p) => p < |s.locs| && s.locs[p].WakingLocked?
    case DropLock(p) => p < |s.locs| && s.locs[p].SleepLocked?
    case Fall(p) => p < |s.locs| && s.locs[p].Falling?
    case KillSleeper(p) => p < |s.locs| && s.locs[p].Asleep? && s.table == None
    case Rise(p) => p < |s.locs| && s.locs[p].Ready? && s.table == None
    case Back(p) => p < |s.locs| && s.locs[p].Rising?
    case OthersTake => s.table == None
    case OthersRelease => s.table == Some(|s.locs|)
  }

  /** The channels owed a wakeup once the data goes from `d` to `d'`: those unblocked by then. */
  ghost function Owes<D, T, C(!new)>(code: Code<D, T, C>, owed: iset<C>, d: D, d': D): iset<C> {
    iset c | (c in owed || code.blocked(c, d)) && !code.blocked(c, d')
  }

  function Roused<T, C(==)>(locs: seq<Location<T, C>>, chan: C): (r: seq<Location<T, C>>)
    ensures |r| == |locs|
    ensures forall q :: 0 <= q < |locs| ==> r[q] == if locs[q] == Asleep(chan) then Ready else locs[q]
  {
    seq(|locs|, q requires 0 <= q < |locs| => if locs[q] == Asleep(chan) then Ready else locs[q])
  }

  ghost function Next<D, T, C(!new)>(code: Code<D, T, C>, s: State<D, T, C>, step: Step<T, C>): State<D, T, C>
    requires Enabled(code, s, step)
  {
    match step
    case Enter(p, x) => s.(locs := s.locs[p := Inside(x)], lk := Some(p))
    case Do(p) =>
      var x := s.locs[p].rest;
      var rest := Section(x.todo[1..], x.end);
      (match x.todo[0]
       case Set(u) =>
         s.(data := code.apply(u, s.data), owed := Owes(code, s.owed, s.data, code.apply(u, s.data)),
            locs := s.locs[p := Inside(rest)])
       case Wake(c) => s.(locs := s.locs[p := Waking(c, rest)]))
    case Finish(p) =>
      (match s.locs[p].rest.end
       case Release => s.(locs := s.locs[p := Outside], lk := None)
       case SleepOn(c) => s.(locs := s.locs[p := GoingToSleep(c)]))
    case TakeTable(p) =>
      s.(table := Some(p),
         locs := s.locs[p := if s.locs[p].Waking? then WakingLocked(s.locs[p].chan, s.locs[p].rest)
                             else SleepLocked(s.locs[p].chan)])
    case WakeAll(p) =>
      s.(table := None, owed := s.owed - iset{s.locs[p].chan},
         locs := Roused(s.locs, s.locs[p].chan)[p := Inside(s.locs[p].rest)])
    case DropLock(p) => s.(lk := None, locs := s.locs[p := Falling(s.locs[p].chan)])
    case Fall(p) => s.(table := None, locs := s.locs[p := Asleep(s.locs[p].chan)])
    case KillSleeper(p) => s.(locs := s.locs[p := Ready])
    case Rise(p) => s.(table := Some(p), locs := s.locs[p := Rising])
    case Back(p) => s.(table := None, locs := s.locs[p := Returning])
    case OthersTake => s.(table := Some(|s.locs|))
    case OthersRelease => s.(table := None)
  }

  // ---------- The discipline a section must follow ----------

  /** From here, the section wakes every channel it has unblocked or will unblock, leaves the data fit, and
      goes to sleep only where it is blocked. */
  ghost predicate Disciplined<D(!new), T, C(!new)>(code: Code<D, T, C>, owed: iset<C>, d: D, x: Section<T, C>)
    decreases |x.todo|
  {
    if x.todo == [] then
      owed == iset{} && code.keeps(d) && (x.end.SleepOn? ==> code.blocked(x.end.chan, d))
    else
      var rest := Section(x.todo[1..], x.end);
      match x.todo[0]
      case Set(u) => Disciplined(code, Owes(code, owed, d, code.apply(u, d)), code.apply(u, d), rest)
      case Wake(c) => Disciplined(code, owed - iset{c}, d, rest)
  }

  lemma SetThen<D(!new), T, C(!new)>(code: Code<D, T, C>, owed: iset<C>, d: D, u: T, x: Section<T, C>)
    requires Disciplined(code, Owes(code, owed, d, code.apply(u, d)), code.apply(u, d), x)
    ensures Disciplined(code, owed, d, Section([Set(u)] + x.todo, x.end))
  {
    assert ([Set(u)] + x.todo)[1..] == x.todo;
  }

  lemma WakeThen<D(!new), T, C(!new)>(code: Code<D, T, C>, owed: iset<C>, d: D, c: C, x: Section<T, C>)
    requires Disciplined(code, owed - iset{c}, d, x)
    ensures Disciplined(code, owed, d, Section([Wake(c)] + x.todo, x.end))
  {
    assert ([Wake(c)] + x.todo)[1..] == x.todo;
  }

  ghost predicate AllDisciplined<D(!new), T(!new), C(!new)>(code: Code<D, T, C>) {
    forall p: nat, d: D, x: Section<T, C> ::
      code.keeps(d) && code.starts(p, d, x) ==> Disciplined(code, iset{}, d, x)
  }

  // ---------- The invariant ----------

  ghost predicate LocationInv<D(!new), T, C(!new)>(code: Code<D, T, C>, s: State<D, T, C>, p: nat)
    requires p < |s.locs|
  {
    && (s.locs[p].HoldsLk() <==> s.lk == Some(p))
    && (s.locs[p].HoldsTable() <==> s.table == Some(p))
    && match s.locs[p]
       case Inside(x) => Disciplined(code, s.owed, s.data, x)
       case Waking(c, x) => Disciplined(code, s.owed - iset{c}, s.data, x)
       case WakingLocked(c, x) => Disciplined(code, s.owed - iset{c}, s.data, x)
       case GoingToSleep(c) => s.owed == iset{} && code.blocked(c, s.data) && code.keeps(s.data)
       case SleepLocked(c) => s.owed == iset{} && code.blocked(c, s.data) && code.keeps(s.data)
       case Falling(c) => code.blocked(c, s.data) || c in s.owed
       case Asleep(c) => code.blocked(c, s.data) || c in s.owed
       case _ => true
  }

  ghost predicate Inv<D(!new), T, C(!new)>(code: Code<D, T, C>, s: State<D, T, C>) {
    && (s.lk.Some? ==> s.lk.value < |s.locs|)
    && (s.lk == None ==> s.owed == iset{} && code.keeps(s.data))
    && forall p :: 0 <= p < |s.locs| ==> LocationInv(code, s, p)
  }

  lemma InvStep<D(!new), T(!new), C(!new)>(code: Code<D, T, C>, s: State<D, T, C>, step: Step<T, C>)
    requires AllDisciplined(code) && Inv(code, s) && Enabled(code, s, step)
    ensures Inv(code, Next(code, s, step))
  {
    var s' := Next(code, s, step);
    if !step.OthersTake? && !step.OthersRelease? {
      assert LocationInv(code, s, step.p);
    }
    forall q | 0 <= q < |s'.locs|
      ensures LocationInv(code, s', q)
    {
      assert LocationInv(code, s, q);
    }
  }

  // ---------- Whole runs ----------

  ghost predicate Initial<D, T, C>(code: Code<D, T, C>, s: State<D, T, C>) {
    && s.lk == None && s.table == None && s.owed == iset{} && code.keeps(s.data)
    && forall p :: 0 <= p < |s.locs| ==> s.locs[p] == Outside
  }

  ghost predicate StepAt<D, T, C(!new)>(code: Code<D, T, C>, states: seq<State<D, T, C>>, steps: seq<Step<T, C>>,
                                        i: nat)
    requires i < |steps| && |states| == |steps| + 1
  {
    Enabled(code, states[i], steps[i]) && states[i + 1] == Next(code, states[i], steps[i])
  }

  ghost predicate IsRun<D, T, C(!new)>(code: Code<D, T, C>, states: seq<State<D, T, C>>, steps: seq<Step<T, C>>) {
    && |states| == |steps| + 1
    && Initial(code, states[0])
    && forall i :: 0 <= i < |steps| ==> StepAt(code, states, steps, i)
  }

  lemma {:induction false} RunInv<D(!new), T(!new), C(!new)>(
      code: Code<D, T, C>, states: seq<State<D, T, C>>, steps: seq<Step<T, C>>, n: nat)
    requires AllDisciplined(code) && IsRun(code, states, steps) && n < |states|
    ensures Inv(code, states[n])
  {
    if n > 0 {
      RunInv(code, states, steps, n - 1);
      assert StepAt(code, states, steps, n - 1);
      InvStep(code, states[n - 1], steps[n - 1]);
    }
  }

  /** No wakeup is lost: whenever `lk` is free, a process asleep on a channel is still blocked there, and the
      data satisfies its invariant. */
  lemma NoLostWakeup<D(!new), T(!new), C(!new)>(
      code: Code<D, T, C>, states: seq<State<D, T, C>>, steps: seq<Step<T, C>>, n: nat)
    requires AllDisciplined(code) && IsRun(code, states, steps) && n < |states| && states[n].lk == None
    ensures code.keeps(states[n].data)
    ensures forall p :: 0 <= p < |states[n].locs| && states[n].locs[p].Asleep? ==>
              code.blocked(states[n].locs[p].chan, states[n].data)
  {
    RunInv(code, states, steps, n);
    var s := states[n];
    forall p | 0 <= p < |s.locs| && s.locs[p].Asleep?
      ensures code.blocked(s.locs[p].chan, s.data)
    {
      assert LocationInv(code, s, p);
    }
  }

  // ---------- What a section comes to ----------

  /** The data once the rest of a section has run. */
  function Outcome<D, T, C>(code: Code<D, T, C>, d: D, x: Section<T, C>): D
    decreases |x.todo|
  {
    if x.todo == [] then d
    else
      var rest := Section(x.todo[1..], x.end);
      match x.todo[0]
      case Set(u) => Outcome(code, code.apply(u, d), rest)
      case Wake(c) => Outcome(code, d, rest)
  }

  lemma OutcomeSet<D, T, C>(code: Code<D, T, C>, d: D, u: T, x: Section<T, C>)
    ensures Outcome(code, d, Section([Set(u)] + x.todo, x.end)) == Outcome(code, code.apply(u, d), x)
  {
    assert ([Set(u)] + x.todo)[1..] == x.todo;
  }

  lemma OutcomeWake<D, T, C>(code: Code<D, T, C>, d: D, c: C, x: Section<T, C>)
    ensures Outcome(code, d, Section([Wake(c)] + x.todo, x.end)) == Outcome(code, d, x)
  {
    assert ([Wake(c)] + x.todo)[1..] == x.todo;
  }

  /** An update and a wakeup. */
  lemma OutcomeSetWake<D, T, C>(code: Code<D, T, C>, d: D, u: T, c: C, end: Ending<C>)
    ensures Outcome(code, d, Section([Set(u), Wake(c)], end)) == code.apply(u, d)
  {
    var x: Section<T, C> := Section([], end);
    OutcomeWake(code, code.apply(u, d), c, x);
    assert [Wake(c)] + x.todo == [Wake(c)];
    OutcomeSet(code, d, u, Section([Wake(c)], end));
    assert [Set(u)] + [Wake(c)] == [Set(u), Wake(c)];
  }

  // ---------- Data that fits in the middle of sections ----------

  /** From here, the data is `fit` at every point of the section. */
  ghost predicate Steady<D(!new), T, C(!new)>(code: Code<D, T, C>, fit: D -> bool, d: D, x: Section<T, C>)
    decreases |x.todo|
  {
    && fit(d)
    && (x.todo != [] ==>
          var rest := Section(x.todo[1..], x.end);
          match x.todo[0]
          case Set(u) => Steady(code, fit, code.apply(u, d), rest)
          case Wake(c) => Steady(code, fit, d, rest))
  }

  lemma SteadySet<D(!new), T, C(!new)>(code: Code<D, T, C>, fit: D -> bool, d: D, u: T, x: Section<T, C>)
    requires fit(d) && Steady(code, fit, code.apply(u, d), x)
    ensures Steady(code, fit, d, Section([Set(u)] + x.todo, x.end))
  {
    assert ([Set(u)] + x.todo)[1..] == x.todo;
  }

  lemma SteadyWake<D(!new), T, C(!new)>(code: Code<D, T, C>, fit: D -> bool, d: D, c: C, x: Section<T, C>)
    requires Steady(code, fit, d, x)
    ensures Steady(code, fit, d, Section([Wake(c)] + x.todo, x.end))
  {
    assert ([Wake(c)] + x.todo)[1..] == x.todo;
  }

  ghost predicate AllSteady<D(!new), T(!new), C(!new)>(code: Code<D, T, C>, fit: D -> bool) {
    && (forall d: D :: code.keeps(d) ==> fit(d))
    && forall p: nat, d: D, x: Section<T, C> :: code.keeps(d) && code.starts(p, d, x) ==> Steady(code, fit, d, x)
  }

  ghost predicate SteadyAt<D(!new), T, C(!new)>(code: Code<D, T, C>, fit: D -> bool, s: State<D, T, C>, p: nat)
    requires p < |s.locs|
  {
    s.locs[p].Inside? || s.locs[p].Waking? || s.locs[p].WakingLocked? ==>
      Steady(code, fit, s.data, s.locs[p].rest)
  }

  ghost predicate SteadyInv<D(!new), T, C(!new)>(code: Code<D, T, C>, fit: D -> bool, s: State<D, T, C>) {
    fit(s.data) && forall p :: 0 <= p < |s.locs| ==> SteadyAt(code, fit, s, p)
  }

  lemma SteadyStep<D(!new), T(!new), C(!new)>(code: Code<D, T, C>, fit: D -> bool, s: State<D, T, C>,
                                              step: Step<T, C>)
    requires AllSteady(code, fit) && Inv(code, s) && SteadyInv(code, fit, s) && Enabled(code, s, step)
    ensures SteadyInv(code, fit, Next(code, s, step))
  {
    var s' := Next(code, s, step);
    if !step.OthersTake? && !step.OthersRelease? {
      assert LocationInv(code, s, step.p) && SteadyAt(code, fit, s, step.p);
    }
    forall q | 0 <= q < |s'.locs|
      ensures SteadyAt(code, fit, s', q)
    {
      assert LocationInv(code, s, q) && SteadyAt(code, fit, s, q);
    }
    if step.Do? {
      assert SteadyAt(code, fit, s', step.p);
    }
  }

  /** The data is fit at every state of a run, whoever holds `lk`. */
  lemma {:induction false} AlwaysFit<D(!new), T(!new), C(!new)>(
      code: Code<D, T, C>, fit: D -> bool, states: seq<State<D, T, C>>, steps: seq<Step<T, C>>, n: nat)
    requires AllDisciplined(code) && AllSteady(code, fit) && IsRun(code, states, steps) && n < |states|
    ensures SteadyInv(code, fit, states[n]) && fit(states[n].data)
  {
    if n > 0 {
      AlwaysFit(code, fit, states, steps, n - 1);
      RunInv(code, states, steps, n - 1);
      assert StepAt(code, states, steps, n - 1);
      SteadyStep(code, fit, states[n - 1], steps[n - 1]);
    }
  }

  /** Some run ends in `s`. */
  ghost predicate Visited<D(!new), T(!new), C(!new)>(code: Code<D, T, C>, s: State<D, T, C>) {
    exists states: seq<State<D, T, C>>, steps: seq<Step<T, C>> ::
      IsRun(code, states, steps) && states[|steps|] == s
  }

  lemma VisitInitial<D(!new), T(!new), C(!new)>(code: Code<D, T, C>, s: State<D, T, C>)
    requires Initial(code, s)
    ensures Visited(code, s)
  {
    var states: seq<State<D, T, C>>, steps: seq<Step<T, C>> := [s], [];
    assert IsRun(code, states, steps) && states[|steps|] == s;
  }

  /** A run goes on by one step. */
  lemma ExtendRun<D(!new), T(!new), C(!new)>(
      code: Code<D, T, C>, states: seq<State<D, T, C>>, steps: seq<Step<T, C>>, step: Step<T, C>)
    requires IsRun(code, states, steps) && Enabled(code, states[|steps|], step)
    ensures IsRun(code, states + [Next(code, states[|steps|], step)], steps + [step])
  {
    var s := states[|steps|];
    var states', steps' := states + [Next(code, s, step)], steps + [step];
    forall i | 0 <= i < |steps'|
      ensures StepAt(code, states', steps', i)
    {
      if i < |steps| {
        assert StepAt(code, states, steps, i);
        assert states'[i] == states[i] && states'[i + 1] == states[i + 1] && steps'[i] == steps[i];
      } else {
        assert states'[i] == s && states'[i + 1] == Next(code, s, step) && steps'[i] == step;
      }
    }
  }

  lemma VisitNext<D(!new), T(!new), C(!new)>(code: Code<D, T, C>, s: State<D, T, C>, step: Step<T, C>)
    requires Visited(code, s) && Enabled(code, s, step)
    ensures Visited(code, Next(code, s, step))
  {
    var states, steps :| IsRun(code, states, steps) && states[|steps|] == s;
    ExtendRun(code, states, steps, step);
    var states', steps' := states + [Next(code, s, step)], steps + [step];
    assert IsRun(code, states', steps') && states'[|steps'|] == Next(code, s, step);
  }

  /** `blocked` only feeds the history `owed`: a run of one code is, but for that history, a run of another with
      the same sections. */
  lemma {:induction false} Recast<D(!new), T(!new), C(!new)>(
      code: Code<D, T, C>, code': Code<D, T, C>, states: seq<State<D, T, C>>, steps: seq<Step<T, C>>)
      returns (states': seq<State<D, T, C>>)
    requires code'.apply == code.apply && code'.starts == code.starts && code'.keeps == code.keeps
    requires IsRun(code, states, steps)
    ensures IsRun(code', states', steps)
    ensures forall i :: 0 <= i < |states| ==> states'[i] == states[i].(owed := states'[i].owed)
    decreases |steps|
  {
    if steps == [] {
      states' := states;
    } else {
      var n := |steps| - 1;
      var init, fewer := states[..n + 1], steps[..n];
      forall i | 0 <= i < |fewer|
        ensures StepAt(code, init, fewer, i)
      {
        assert StepAt(code, states, steps, i);
      }
      var before := Recast(code, code', init, fewer);
      assert StepAt(code, states, steps, n);
      var last := Next(code', before[n], steps[n]);
      states' := before + [last];
      forall i | 0 <= i < |steps|
        ensures StepAt(code', states', steps, i)
      {
        if i < n {
          assert StepAt(code', before, fewer, i);
          assert states'[i] == before[i] && states'[i + 1] == before[i + 1];
        }
      }
      assert states'[n + 1] == states[n + 1].(owed := last.owed);
    }
  }
}
