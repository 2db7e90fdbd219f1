/** Sleep locks: `acquiresleep`, `releasesleep` and `holdingsleep` as sections under the inner spinlock. */
module SleepLock {
  import opened ProcTypes
  import opened Monitor

  /** `holders` is history: the processes between their `acquiresleep` and their `releasesleep`. */
  datatype Lock = Lock(locked: bool, holders: set<nat>)

  datatype Update = Take(p: nat) | Give(p: nat)

  datatype Channel = TheLock

  predicate Blocked(c: Channel, d: Lock) {
    d.locked
  }

  function Apply(u: Update, d: Lock): Lock {
    match u
    case Take(p) => Lock(true, d.holders + {p})
    case Give(p) => Lock(false, d.holders - {p})
  }

  /** One pass of the loop of `acquiresleep`. */
  function AcquireSleep(p: nat, d: Lock): Section<Update, Channel> {
    if d.locked then Section([], SleepOn(TheLock)) else Section([Set(Take(p))], Release)
  }

  function ReleaseSleep(p: nat): Section<Update, Channel> {
    Section([Set(Give(p)), Wake(TheLock)], Release)
  }

  /** Anybody may try to acquire; only a holder releases; `holdingsleep` only looks. */
  predicate Starts(p: nat, d: Lock, x: Section<Update, Channel>) {
    x == AcquireSleep(p, d) || (p in d.holders && x == ReleaseSleep(p)) || x == Section([], Release)
  }

  predicate Keeps(d: Lock) {
    if d.locked then |d.holders| == 1 else d.holders == {}
  }

  const CODE: Code<Lock, Update, Channel> := Code(Blocked, Apply, Starts, Keeps)

  lemma SectionsDisciplined()
    ensures AllDisciplined(CODE)
  {
    forall p: nat, d: Lock, x: Section<Update, Channel> | Keeps(d) && Starts(p, d, x)
      ensures Disciplined(CODE, iset{}, d, x)
    {
      if p in d.holders && x == ReleaseSleep(p) {
        ReleaseDisciplined(p, d);
      } else if x == AcquireSleep(p, d) && !d.locked {
        AcquireDisciplined(p, d);
      }
    }
  }

  lemma AcquireDisciplined(p: nat, d: Lock)
    requires Keeps(d) && !d.locked
    ensures Disciplined(CODE, iset{}, d, AcquireSleep(p, d))
  {
    assert Owes(CODE, iset{}, d, Apply(Take(p), d)) == iset{};
    assert d.holders + {p} == {p};
    SetThen(CODE, iset{}, d, Take(p), Section([], Release));
  }

  lemma ReleaseDisciplined(p: nat, d: Lock)
    requires Keeps(d) && p in d.holders
    ensures Disciplined(CODE, iset{}, d, ReleaseSleep(p))
  {
    var d' := Apply(Give(p), d);
    SingletonMinus(d.holders, p);
    var owed := Owes(CODE, iset{}, d, d');
    assert owed - iset{TheLock} == iset{} by {
      assert forall c: Channel :: c in owed ==> c == TheLock;
    }
    WakeThen(CODE, owed, d', TheLock, Section([], Release));
    SetThen(CODE, iset{}, d, Give(p), Section([Wake(TheLock)], Release));
  }

  lemma SingletonMinus(s: set<nat>, p: nat)
    requires |s| == 1 && p in s
    ensures s - {p} == {}
  {
    assert |s - {p}| == 0;
  }

  /** A process that takes the lock is then its one holder, and one that gives it back leaves it free; a process that
      finds it taken sleeps and changes nothing. */
  lemma SectionEffects(p: nat, d: Lock)
    requires Keeps(d)
    ensures var x := AcquireSleep(p, d);
            if d.locked then x.end == SleepOn(TheLock) && Outcome(CODE, d, x) == d
            else x.end == Release && Outcome(CODE, d, x) == Lock(true, {p})
    ensures p in d.holders ==> ReleaseSleep(p).end == Release && Outcome(CODE, d, ReleaseSleep(p)) == Lock(false, {})
  {
    if p in d.holders {
      SingletonMinus(d.holders, p);
      OutcomeSetWake(CODE, d, Give(p), TheLock, Release);
    } else if !d.locked {
      assert d.holders + {p} == {p};
    }
  }

  /** In every run, while the inner spinlock is free: at most one process holds the sleep lock, it is marked
      locked exactly then, and nobody sleeps on it while it is unlocked. */
  lemma SleepLockSafety(states: seq<State<Lock, Update, Channel>>, steps: seq<Step<Update, Channel>>, n: nat)
    requires IsRun(CODE, states, steps) && n < |states| && states[n].lk == None
    ensures var d := states[n].data;
            && |d.holders| <= 1 && (d.locked <==> d.holders != {})
            && (!d.locked ==> forall p :: 0 <= p < |states[n].locs| ==> !states[n].locs[p].Asleep?)
  {
    SectionsDisciplined();
    NoLostWakeup(CODE, states, steps, n);
  }
}
