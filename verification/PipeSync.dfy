/** Sleeping readers and writers of a pipe: which passes of `pipewrite`, `piperead` and `pipeclose` wake whom. */
module PipeSync {
  import opened ProcTypes
  import opened Monitor
  import opened Params

  /** The counts of bytes ever stored and ever taken, and the open ends. */
  datatype Ends = Ends(stored: nat, taken: nat, readopen: bool, writeopen: bool)

  datatype Update = Put(k: nat) | Get(k: nat) | CloseRead | CloseWrite

  /** &p->nread and &p->nwrite. */
  datatype Channel = NRead | NWrite

  predicate Blocked(c: Channel, d: Ends) {
    match c
    case NRead => d.stored == d.taken && d.writeopen
    case NWrite => d.stored == d.taken + PIPESIZE && d.readopen
  }

  function Apply(u: Update, d: Ends): Ends {
    match u
    case Put(k) => d.(stored := d.stored + k)
    case Get(k) => d.(taken := d.taken + k)
    case CloseRead => d.(readopen := false)
    case CloseWrite => d.(writeopen := false)
  }

  predicate Keeps(d: Ends) {
    d.taken <= d.stored <= d.taken + PIPESIZE
  }

  function Space(d: Ends): int {
    d.taken + PIPESIZE - d.stored
  }

  /** `pipewrite` with `m` bytes left: they fit. */
  function WriteAll(m: nat): Section<Update, Channel> {
    Section([Set(Put(m)), Wake(NRead)], Release)
  }

  /** `pipewrite` fills the ring and sleeps. */
  function WriteSome(space: nat): Section<Update, Channel> {
    Section([Set(Put(space)), Wake(NRead)], SleepOn(NWrite))
  }

  /** `pipewrite` fills the ring and returns -1: the reader has gone or the writer was killed. */
  function WriteFails(space: nat): Section<Update, Channel> {
    Section([Set(Put(space))], Release)
  }

  function Read(k: nat): Section<Update, Channel> {
    Section([Set(Get(k)), Wake(NWrite)], Release)
  }

  function Close(writable: bool): Section<Update, Channel> {
    if writable then Section([Set(CloseWrite), Wake(NRead)], Release)
    else Section([Set(CloseRead), Wake(NWrite)], Release)
  }

  /** All passes but the failing write: what each does is decided by the state of the ring. */
  ghost predicate Regular(d: Ends, x: Section<Update, Channel>) {
    || (exists m: nat :: m <= Space(d) && x == WriteAll(m))
    || (Space(d) >= 0 && d.readopen && x == WriteSome(Space(d)))
    || (d.stored == d.taken && d.writeopen && (x == Section([], SleepOn(NRead)) || x == Section([], Release)))
    || (exists k: nat :: k <= d.stored - d.taken && x == Read(k))
    || x == Close(true) || x == Close(false)
  }

  ghost predicate Failing(d: Ends, x: Section<Update, Channel>) {
    Space(d) >= 0 && x == WriteFails(Space(d))
  }

  /** The coded sections; the code in which a failing write never starts on an empty ring; and the coded
      sections seen by somebody who only cares about `NWrite`. */
  ghost const STARTS: (nat, Ends, Section<Update, Channel>) -> bool :=
    (p: nat, d: Ends, x: Section<Update, Channel>) => Regular(d, x) || Failing(d, x)

  ghost const CODED: Code<Ends, Update, Channel> := Code(Blocked, Apply, STARTS, Keeps)

  ghost const CAREFUL: Code<Ends, Update, Channel> :=
    Code(Blocked, Apply,
         (p: nat, d: Ends, x: Section<Update, Channel>) =>
           Regular(d, x) || (Failing(d, x) && !Blocked(NRead, d)), Keeps)

  ghost const WRITERS: Code<Ends, Update, Channel> :=
    Code((c: Channel, d: Ends) => c == NRead || Blocked(c, d), Apply, STARTS, Keeps)

  /** What each section does to the counts and the ends. */
  lemma SectionEffects(d: Ends, k: nat)
    ensures Outcome(CODED, d, WriteAll(k)) == Ends(d.stored + k, d.taken, d.readopen, d.writeopen)
    ensures Outcome(CODED, d, WriteSome(k)) == Ends(d.stored + k, d.taken, d.readopen, d.writeopen)
    ensures Outcome(CODED, d, WriteFails(k)) == Ends(d.stored + k, d.taken, d.readopen, d.writeopen)
    ensures Outcome(CODED, d, Read(k)) == Ends(d.stored, d.taken + k, d.readopen, d.writeopen)
    ensures Outcome(CODED, d, Close(true)) == Ends(d.stored, d.taken, d.readopen, false)
    ensures Outcome(CODED, d, Close(false)) == Ends(d.stored, d.taken, false, d.writeopen)
  {
    OutcomeSetWake(CODED, d, Put(k), NRead, Release);
    OutcomeSetWake(CODED, d, Put(k), NRead, SleepOn(NWrite));
    OutcomeSetWake(CODED, d, Get(k), NWrite, Release);
    OutcomeSetWake(CODED, d, CloseWrite, NRead, Release);
    OutcomeSetWake(CODED, d, CloseRead, NWrite, Release);
  }

  lemma OnlyChannel(owed: iset<Channel>, c: Channel)
    requires forall e: Channel :: e in owed ==> e == c
    ensures owed - iset{c} == iset{}
  {
  }

  /** An update that unblocks at most `c`, then a wakeup of `c`, then the end. */
  lemma UpdateThenWake(code: Code<Ends, Update, Channel>, d: Ends, u: Update, c: Channel, end: Ending<Channel>)
    requires code.apply == Apply && code.keeps == Keeps && Keeps(Apply(u, d))
    requires forall e: Channel :: e != c && code.blocked(e, d) ==> code.blocked(e, Apply(u, d))
    requires end.SleepOn? ==> code.blocked(end.chan, Apply(u, d))
    ensures Disciplined(code, iset{}, d, Section([Set(u), Wake(c)], end))
  {
    var d' := Apply(u, d);
    var owed := Owes(code, iset{}, d, d');
    OnlyChannel(owed, c);
    WakeThen(code, owed, d', c, Section([], end));
    SetThen(code, iset{}, d, u, Section([Wake(c)], end));
  }

  lemma RegularDisciplined(code: Code<Ends, Update, Channel>, d: Ends, x: Section<Update, Channel>)
    requires code.apply == Apply && code.keeps == Keeps && Keeps(d) && Regular(d, x)
    requires (forall c: Channel, e: Ends :: code.blocked(c, e) <==> Blocked(c, e))
             || (forall c: Channel, e: Ends :: code.blocked(c, e) <==> c == NRead || Blocked(c, e))
    ensures Disciplined(code, iset{}, d, x)
  {
    if m: nat :| m <= Space(d) && x == WriteAll(m) {
      UpdateThenWake(code, d, Put(m), NRead, Release);
    } else if d.readopen && x == WriteSome(Space(d)) {
      UpdateThenWake(code, d, Put(Space(d)), NRead, SleepOn(NWrite));
    } else if k: nat :| k <= d.stored - d.taken && x == Read(k) {
      UpdateThenWake(code, d, Get(k), NWrite, Release);
    } else if x == Close(true) {
      UpdateThenWake(code, d, CloseWrite, NRead, Release);
    } else if x == Close(false) {
      UpdateThenWake(code, d, CloseRead, NWrite, Release);
    }
  }

  /** The failing write owes a reader its wakeup exactly when the ring was empty with the write end open. */
  lemma FailingWriteDiscipline(d: Ends)
    requires Keeps(d)
    ensures Disciplined(CODED, iset{}, d, WriteFails(Space(d))) <==> !(d.stored == d.taken && d.writeopen)
  {
    var x := WriteFails(Space(d));
    var d' := Apply(Put(Space(d)), d);
    var owed := Owes(CODED, iset{}, d, d');
    assert x.todo[1..] == [];
    if d.stored == d.taken && d.writeopen {
      assert NRead in owed;
    } else {
      assert owed == iset{};
    }
  }

  lemma WritersDisciplined(d: Ends)
    requires Keeps(d)
    ensures Disciplined(WRITERS, iset{}, d, WriteFails(Space(d)))
  {
    assert Owes(WRITERS, iset{}, d, Apply(Put(Space(d)), d)) == iset{};
    SetThen(WRITERS, iset{}, d, Put(Space(d)), Section([], Release));
  }

  /** In every run of the coded pipe, with the pipe lock free, a writer asleep means a full ring with its read end
      open. */
  lemma WriterAsleepMeansFull(states: seq<State<Ends, Update, Channel>>, steps: seq<Step<Update, Channel>>, n: nat,
                              p: nat)
    requires IsRun(CODED, states, steps) && n < |states| && states[n].lk == None
    requires p < |states[n].locs| && states[n].locs[p] == Asleep(NWrite)
    ensures var d := states[n].data; d.stored == d.taken + PIPESIZE && d.readopen
  {
    forall q: nat, d: Ends, x: Section<Update, Channel> | WRITERS.keeps(d) && WRITERS.starts(q, d, x)
      ensures Disciplined(WRITERS, iset{}, d, x)
    {
      if Regular(d, x) {
        RegularDisciplined(WRITERS, d, x);
      } else {
        WritersDisciplined(d);
      }
    }
    var states' := Recast(CODED, WRITERS, states, steps);
    NoLostWakeup(WRITERS, states', steps, n);
  }

  /** If no write fails on an empty ring, every sleeper is where it should be. */
  lemma CarefulSleepers(states: seq<State<Ends, Update, Channel>>, steps: seq<Step<Update, Channel>>, n: nat, p: nat)
    requires IsRun(CAREFUL, states, steps) && n < |states| && states[n].lk == None
    requires p < |states[n].locs| && states[n].locs[p].Asleep?
    ensures var d := states[n].data;
            match states[n].locs[p].chan
            case NRead => d.stored == d.taken && d.writeopen
            case NWrite => d.stored == d.taken + PIPESIZE && d.readopen
  {
    forall q: nat, d: Ends, x: Section<Update, Channel> | CAREFUL.keeps(d) && CAREFUL.starts(q, d, x)
      ensures Disciplined(CAREFUL, iset{}, d, x)
    {
      if Regular(d, x) {
        RegularDisciplined(CAREFUL, d, x);
      } else {
        FailingWriteDiscipline(d);
        SameDiscipline(d);
      }
    }
    NoLostWakeup(CAREFUL, states, steps, n);
  }

  lemma SameDiscipline(d: Ends)
    requires Keeps(d) && Disciplined(CODED, iset{}, d, WriteFails(Space(d)))
    ensures Disciplined(CAREFUL, iset{}, d, WriteFails(Space(d)))
  {
    var d' := Apply(Put(Space(d)), d);
    assert Owes(CODED, iset{}, d, d') == Owes(CAREFUL, iset{}, d, d');
    assert WriteFails(Space(d)).todo[1..] == [];
    SetThen(CAREFUL, iset{}, d, Put(Space(d)), Section([], Release));
  }

  lemma ReaderFindsNothing() returns (s: State<Ends, Update, Channel>)
    ensures s == State(Ends(0, 0, true, true), [GoingToSleep(NRead), Outside], Some(0), None, iset{})
    ensures Visited(CODED, s)
  {
    s := State(Ends(0, 0, true, true), [Outside, Outside], None, None, iset{});
    VisitInitial(CODED, s);
    s := Advance(s, Enter(0, Section([], SleepOn(NRead))));
    s := Advance(s, Finish(0));
  }

  lemma ReaderFallsAsleep() returns (s: State<Ends, Update, Channel>)
    ensures s == State(Ends(0, 0, true, true), [Asleep(NRead), Outside], None, None, iset{}) && Visited(CODED, s)
  {
    s := ReaderFindsNothing();
    s := Advance(s, TakeTable(0));
    s := Advance(s, DropLock(0));
    s := Advance(s, Fall(0));
  }

  /** As coded, a wakeup is lost: a reader sleeps on an empty pipe, a killed writer fills it and returns -1, and the
      reader sleeps on with PIPESIZE bytes to read and the lock free. */
  lemma KilledWriterStrandsReader() returns (s: State<Ends, Update, Channel>)
    ensures Visited(CODED, s) && s.lk == None && s.table == None
    ensures |s.locs| == 2 && s.locs[0] == Asleep(NRead)
    ensures s.data.stored == s.data.taken + PIPESIZE && s.data.writeopen
  {
    s := ReaderFallsAsleep();
    s := Advance(s, Enter(1, WriteFails(PIPESIZE)));
    s := Advance(s, Do(1));
    s := Advance(s, Finish(1));
  }

  lemma Advance(s: State<Ends, Update, Channel>, step: Step<Update, Channel>) returns (s': State<Ends, Update, Channel>)
    requires Visited(CODED, s) && Enabled(CODED, s, step)
    ensures s' == Next(CODED, s, step) && Visited(CODED, s')
  {
    VisitNext(CODED, s, step);
    s' := Next(CODED, s, step);
  }
}
