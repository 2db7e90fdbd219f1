/** The lottery branch of `scheduler`: ticket totals, the winner scan, and each holder's share
    over one full period of the generator. */
module Lottery {
  import opened ProcTypes
  import opened Numbers
  import opened Params
  import Lcg

  /** Tickets are a C `int`. */
  predicate IntTickets(procs: seq<Proc>) {
    forall i :: 0 <= i < |procs| ==> procs[i].tickets <= MAXINT
  }

  function Weight(p: Proc): nat {
    if p.state != Runnable then 0 else if p.tickets > 0 then p.tickets else 1
  }

  /** The `tickets` fields of the runnable slots added up, a field below one counting as one. */
  function TicketSum(procs: seq<Proc>): nat {
    if procs == [] then 0
    else if procs[0].state != Runnable then TicketSum(procs[1..])
    else if procs[0].tickets >= 1 then procs[0].tickets + TicketSum(procs[1..])
    else 1 + TicketSum(procs[1..])
  }

  lemma {:induction false} SumJoin(a: seq<Proc>, b: seq<Proc>)
    ensures TicketSum(a + b) == TicketSum(a) + TicketSum(b)
  {
    if a == [] {
      assert a + b == b;
    } else {
      SumJoin(a[1..], b);
      assert (a + b)[1..] == a[1..] + b;
    }
  }

  /** The running sum of the scan is the sum of the fields. */
  lemma {:induction false} PrefixIsSum(procs: seq<Proc>, k: nat)
    requires k <= |procs|
    ensures Prefix(procs, k) == TicketSum(procs[..k])
    ensures k == |procs| ==> Tickets(procs) == TicketSum(procs)
    decreases k
  {
    if k > 0 {
      PrefixIsSum(procs, k - 1);
      SumJoin(procs[..k - 1], [procs[k - 1]]);
      assert procs[..k] == procs[..k - 1] + [procs[k - 1]];
      assert TicketSum([procs[k - 1]]) == Weight(procs[k - 1]) + TicketSum([]);
    }
    assert procs[..|procs|] == procs;
  }

  /** Tickets held by the runnable slots below `k`. */
  function Prefix(procs: seq<Proc>, k: nat): nat
    requires k <= |procs|
  {
    if k == 0 then 0 else Prefix(procs, k - 1) + Weight(procs[k - 1])
  }

  function Tickets(procs: seq<Proc>): nat {
    Prefix(procs, |procs|)
  }

  /** Signed 32-bit wrap-around. */
  function Wrap(x: int): (w: int)
    ensures -0x8000_0000 <= w <= 0x7fff_ffff && (x - w) % 0x1_0000_0000 == 0
  {
    assert (x - x % WORD) % WORD == 0 && (x - x % WORD + WORD) % WORD == 0 by { Multiples(x); }
    if x % WORD <= MAXINT then x % WORD else x % WORD - WORD
  }

  /** The total used for the draw: the sum of the tickets, saturated at MAXINT. */
  function DrawTotal(procs: seq<Proc>): nat {
    if Tickets(procs) <= MAXINT then Tickets(procs) else MAXINT
  }

  /** Slot `i` is the first runnable slot whose running sum, a wrapping `int`, exceeds `r`. */
  ghost predicate Wins(procs: seq<Proc>, r: nat, i: nat) {
    && i < |procs|
    && procs[i].state == Runnable
    && Wrap(Prefix(procs, i + 1)) > r
    && forall j :: 0 <= j < i && procs[j].state == Runnable ==> Wrap(Prefix(procs, j + 1)) <= r
  }

  method TotalTickets(procs: seq<Proc>) returns (total: nat)
    requires IntTickets(procs)
    ensures total == DrawTotal(procs)
    ensures total == if TicketSum(procs) <= 0x7fff_ffff then TicketSum(procs) else 0x7fff_ffff
  {
    PrefixIsSum(procs, |procs|);
    total := 0;
    for k := 0 to |procs|
      invariant total == if Prefix(procs, k) <= MAXINT then Prefix(procs, k) else MAXINT
    {
      if procs[k].state == Runnable {
        var t := if procs[k].tickets > 0 then procs[k].tickets else 1;
        if total <= MAXINT - t {
          total := total + t;
        } else {
          total := MAXINT;
        }
      }
    }
  }

  method FindWinner(procs: seq<Proc>, r: nat) returns (winner: Option<nat>)
    requires r <= MAXINT
    ensures forall i: nat :: winner == Some(i) <==> Wins(procs, r, i)
    ensures winner == None <==> forall i: nat :: !Wins(procs, r, i)
    ensures TicketSum(procs) <= 0x7fff_ffff ==>
              forall i: nat :: winner == Some(i) <==> HoldsTicket(procs, r, i)
  {
    var acc := 0;
    for k := 0 to |procs|
      invariant acc == Wrap(Prefix(procs, k))
      invariant forall j :: 0 <= j < k && procs[j].state == Runnable ==> Wrap(Prefix(procs, j + 1)) <= r
    {
      if procs[k].state == Runnable {
        var t := if procs[k].tickets > 0 then procs[k].tickets else 1;
        WrapAdd(Prefix(procs, k), t);
        acc := Wrap(acc + t);
        if acc > r {
          assert Wins(procs, r, k);
          WinnersHoldTickets(procs, r);
          return Some(k);
        }
      }
    }
    WinnersHoldTickets(procs, r);
    winner := None;
  }

  /** Counting through the runnable slots from ticket 0 on, ticket `r` is one of slot `i`. */
  ghost predicate HoldsTicket(procs: seq<Proc>, r: nat, i: nat) {
    i < |procs| && TicketSum(procs[..i]) <= r < TicketSum(procs[..i + 1])
  }

  lemma WinnerHoldsTicket(procs: seq<Proc>, r: nat, i: nat)
    requires TicketSum(procs) <= MAXINT
    ensures Wins(procs, r, i) <==> HoldsTicket(procs, r, i)
  {
    PrefixIsSum(procs, |procs|);
    if i < |procs| {
      WinsIsBlock(procs, r, i);
      PrefixIsSum(procs, i);
      PrefixIsSum(procs, i + 1);
    }
  }

  lemma WinnersHoldTickets(procs: seq<Proc>, r: nat)
    ensures TicketSum(procs) <= MAXINT ==> forall i: nat :: Wins(procs, r, i) <==> HoldsTicket(procs, r, i)
  {
    if TicketSum(procs) <= MAXINT {
      forall i: nat
        ensures Wins(procs, r, i) <==> HoldsTicket(procs, r, i)
      {
        WinnerHoldsTicket(procs, r, i);
      }
    }
  }

  /** The lottery branch: draw a ticket below the total, then find its holder. */
  method Pick(procs: seq<Proc>, rng: Lcg.Generator) returns (winner: Option<nat>)
    requires IntTickets(procs)
    modifies rng
    ensures DrawTotal(procs) == 0 ==> winner == None && rng.seed == old(rng.seed)
    ensures DrawTotal(procs) > 0 ==>
              && rng.seed == Lcg.Draw(old(rng.seed), 1)
              && forall i: nat :: winner == Some(i) <==> Wins(procs, rng.seed % DrawTotal(procs), i)
    ensures TicketSum(procs) == 0 ==> winner == None && rng.seed == old(rng.seed)
    ensures 0 < TicketSum(procs) <= 0x7fff_ffff ==>
              && rng.seed == (old(rng.seed) * 1664525 + 1013904223) % 0x1_0000_0000
              && forall i: nat :: winner == Some(i) <==> HoldsTicket(procs, rng.seed % TicketSum(procs), i)
  {
    var total := TotalTickets(procs);
    winner := None;
    if total > 0 {
      var draw := rng.Krand();
      assert draw == Lcg.Draw(Lcg.Draw(old(rng.seed), 0), 1);
      winner := FindWinner(procs, draw % total);
    }
  }

  lemma Multiples(x: int)
    ensures (x - x % WORD) % WORD == 0 && (x - x % WORD + WORD) % WORD == 0
  {
    var q := x / WORD;
    assert x - x % WORD == q * WORD && x - x % WORD + WORD == (q + 1) * WORD;
    AddMultiple(0, q, WORD);
    AddMultiple(0, q + 1, WORD);
  }

  lemma WrapAdd(x: int, t: int)
    ensures Wrap(Wrap(x) + t) == Wrap(x + t)
  {
    var k := if x % WORD <= MAXINT then x / WORD else x / WORD + 1;
    assert x + t == (Wrap(x) + t) + k * WORD;
    AddMultiple(Wrap(x) + t, k, WORD);
  }

  lemma WrapSmall(x: nat)
    requires x <= MAXINT
    ensures Wrap(x) == x
  {
  }

  lemma {:induction false} PrefixMonotone(procs: seq<Proc>, i: nat, j: nat)
    requires i <= j <= |procs|
    ensures Prefix(procs, i) <= Prefix(procs, j)
    decreases j
  {
    if i < j {
      PrefixMonotone(procs, i, j - 1);
    }
  }

  /** While the tickets fit an `int`, the winner of ticket `r` is the slot whose block of tickets holds `r`. */
  lemma WinsIsBlock(procs: seq<Proc>, r: nat, i: nat)
    requires Tickets(procs) <= MAXINT && i < |procs|
    ensures Wins(procs, r, i) <==> Prefix(procs, i) <= r < Prefix(procs, i + 1)
  {
    PrefixMonotone(procs, i, |procs|);
    PrefixMonotone(procs, i + 1, |procs|);
    WrapSmall(Prefix(procs, i + 1));
    forall j | 0 <= j < i && procs[j].state == Runnable
      ensures Wrap(Prefix(procs, j + 1)) == Prefix(procs, j + 1) <= Prefix(procs, i)
    {
      PrefixMonotone(procs, j + 1, i);
      PrefixMonotone(procs, j + 1, |procs|);
      WrapSmall(Prefix(procs, j + 1));
    }
    if Wins(procs, r, i) {
      LastRunnable(procs, i, r);
    }
  }

  lemma {:induction false} LastRunnable(procs: seq<Proc>, i: nat, r: nat)
    requires i <= |procs|
    requires forall j :: 0 <= j < i && procs[j].state == Runnable ==> Prefix(procs, j + 1) <= r
    ensures Prefix(procs, i) <= r
  {
    if i > 0 && procs[i - 1].state != Runnable {
      LastRunnable(procs, i - 1, r);
    }
  }

  lemma {:induction false} BlockExists(procs: seq<Proc>, r: nat, k: nat) returns (i: nat)
    requires k <= |procs| && r < Prefix(procs, k)
    ensures i < k && Prefix(procs, i) <= r < Prefix(procs, i + 1)
  {
    if r < Prefix(procs, k - 1) {
      i := BlockExists(procs, r, k - 1);
    } else {
      i := k - 1;
    }
  }

  ghost predicate FindsNobody(procs: seq<Proc>, r: nat) {
    forall i: nat :: !Wins(procs, r, i)
  }

  /** Some draw that `Pick` can make finds no process to run. */
  ghost predicate SomeDrawFindsNobody(procs: seq<Proc>) {
    exists r: nat :: r < DrawTotal(procs) && FindsNobody(procs, r)
  }

  /** Some prefix of the tickets wraps onto MAXINT itself. */
  ghost predicate WrapsOntoTotal(procs: seq<Proc>) {
    exists k: nat :: k <= |procs| && Wrap(Prefix(procs, k)) == MAXINT
  }

  /** Every possible draw finds a process exactly when the tickets fit an `int`, or some prefix of them
      happens to wrap onto the saturated total: the total saturates and the scan's sum does not. */
  lemma EveryDrawFindsSomebody(procs: seq<Proc>)
    requires IntTickets(procs)
    ensures !SomeDrawFindsNobody(procs) <==>
            Tickets(procs) <= MAXINT || WrapsOntoTotal(procs)
  {
    if Tickets(procs) <= MAXINT {
      forall r: nat | r < DrawTotal(procs)
        ensures !FindsNobody(procs, r)
      {
        var i := BlockExists(procs, r, |procs|);
        WinsIsBlock(procs, r, i);
      }
    } else if WrapsOntoTotal(procs) {
      var k: nat :| k <= |procs| && Wrap(Prefix(procs, k)) == MAXINT;
      forall r: nat | r < DrawTotal(procs)
        ensures !FindsNobody(procs, r)
      {
        var i := FirstAbove(procs, r, k);
      }
    } else {
      assert FindsNobody(procs, MAXINT - 1) by {
        assert forall k: nat {:trigger Prefix(procs, k)} :: k <= |procs| ==> Wrap(Prefix(procs, k)) != MAXINT;
      }
    }
  }

  lemma {:induction false} FirstAbove(procs: seq<Proc>, r: nat, k: nat) returns (i: nat)
    requires k <= |procs| && Wrap(Prefix(procs, k)) > r
    ensures Wins(procs, r, i)
  {
    if j: nat :| j < k && Wrap(Prefix(procs, j)) > r {
      i := FirstAbove(procs, r, j);
    } else {
      assert k > 0;
      i := k - 1;
      assert procs[i].state == Runnable by {
        assert Prefix(procs, i) != Prefix(procs, k);
      }
    }
  }

  /** Two processes with 1 and MAXINT tickets: ticket 5 has no holder. */
  lemma SaturatedLotteryLosesADraw(procs: seq<Proc>)
    requires |procs| == 2 && procs[0].state == procs[1].state == Runnable
    requires procs[0].tickets == 1 && procs[1].tickets == MAXINT
    ensures SomeDrawFindsNobody(procs)
  {
    assert Prefix(procs, 0) == 0 && Prefix(procs, 1) == 1;
    assert Prefix(procs, 2) == 1 + MAXINT;
    assert Wrap(1 + MAXINT) < 0;
    assert FindsNobody(procs, 5);
  }

  // ---------- Shares over one period ----------

  /** The remainder of `r` by repeated subtraction. */
  ghost function Rem(r: nat, t: nat): nat
    requires t > 0
  {
    if r < t then r else Rem(r - t, t)
  }

  lemma {:induction false} RemIsMod(r: nat, t: nat)
    requires t > 0
    ensures Rem(r, t) == r % t
  {
    if r < t {
      DivMod(r, t, 0, r);
    } else {
      RemIsMod(r - t, t);
      AddMultiple(r - t, 1, t);
    }
  }

  /** Slot `i` holds ticket number `r`. */
  ghost predicate Holds(procs: seq<Proc>, r: nat, i: nat)
    requires i < |procs|
  {
    Prefix(procs, i) <= r < Prefix(procs, i + 1)
  }

  /** The draws, of the 2^32 that follow `seed`, that `i` wins. */
  ghost function WinningDraws(procs: seq<Proc>, seed: nat, i: nat): set<nat>
    requires DrawTotal(procs) > 0
  {
    set k: nat | 1 <= k <= WORD && Wins(procs, Lcg.Draw(seed, k) % DrawTotal(procs), i)
  }

  /** Numbers below `n` whose remainder modulo `t` lies in [lo, hi). */
  ghost function Residues(n: nat, t: nat, lo: nat, hi: nat): set<nat>
    requires t > 0
  {
    set r: nat | r < n && lo <= Rem(r, t) < hi
  }

  ghost function Interval(lo: nat, hi: nat): (s: set<nat>)
    requires lo <= hi
    ensures forall r :: r in s <==> lo <= r < hi
    ensures |s| == hi - lo
    decreases hi - lo
  {
    if lo == hi then {} else Interval(lo, hi - 1) + {hi - 1}
  }

  lemma {:induction false} ResidueInBlock(q: nat, t: nat, x: nat)
    requires x < t
    ensures Rem(q * t + x, t) == x
    decreases q
  {
    if q > 0 {
      ResidueInBlock(q - 1, t, x);
      assert q * t == (q - 1) * t + t;
    }
  }

  lemma BlockResidues(q: nat, t: nat, lo: nat, hi: nat)
    requires lo <= hi <= t && t > 0
    ensures Residues(q * t + t, t, lo, hi) == Residues(q * t, t, lo, hi) + Interval(q * t + lo, q * t + hi)
  {
    var base := q * t;
    forall r: nat | base <= r < base + t
      ensures Rem(r, t) == r - base
    {
      ResidueInBlock(q, t, r - base);
    }
  }

  lemma NextBlock(q: nat, t: nat, lo: nat, hi: nat)
    requires lo <= hi <= t && t > 0
    ensures |Residues(q * t + t, t, lo, hi)| == |Residues(q * t, t, lo, hi)| + (hi - lo)
  {
    BlockResidues(q, t, lo, hi);
    assert Residues(q * t, t, lo, hi) !! Interval(q * t + lo, q * t + hi);
  }

  lemma {:induction false} FullBlocks(q: nat, t: nat, lo: nat, hi: nat)
    requires lo <= hi <= t && t > 0
    ensures |Residues(q * t, t, lo, hi)| == q * (hi - lo)
    decreases q
  {
    if q > 0 {
      FullBlocks(q - 1, t, lo, hi);
      NextBlock(q - 1, t, lo, hi);
      assert q * t == (q - 1) * t + t;
      assert q * (hi - lo) == (q - 1) * (hi - lo) + (hi - lo);
    }
  }

  lemma ResidueCount(n: nat, t: nat, q: nat, lo: nat, hi: nat)
    requires lo <= hi <= t && q * t <= n < q * t + t
    ensures q * (hi - lo) <= |Residues(n, t, lo, hi)| <= q * (hi - lo) + (hi - lo)
  {
    FullBlocks(q, t, lo, hi);
    NextBlock(q, t, lo, hi);
    SubsetSize(Residues(q * t, t, lo, hi), Residues(n, t, lo, hi));
    SubsetSize(Residues(n, t, lo, hi), Residues(q * t + t, t, lo, hi));
  }

  ghost function Image(f: nat -> nat, s: set<nat>): set<nat> {
    set k | k in s :: f(k)
  }

  lemma {:induction false} ImageSize(f: nat -> nat, s: set<nat>)
    requires forall i, j :: i in s && j in s && i != j ==> f(i) != f(j)
    ensures |Image(f, s)| == |s|
    decreases |s|
  {
    if s != {} {
      var k :| k in s;
      ImageSize(f, s - {k});
      assert Image(f, s) == Image(f, s - {k}) + {f(k)};
      assert f(k) !in Image(f, s - {k});
    }
  }

  lemma EqualWhenFull(a: set<nat>, b: set<nat>)
    requires a <= b && |a| == |b|
    ensures a == b
  {
    assert b == a + (b - a);
  }

  /** An injection from `n` numbers into the numbers below `n` reaches each of them. */
  lemma Surjective(f: nat -> nat, ks: set<nat>, n: nat, r: nat) returns (k: nat)
    requires |ks| == n && r < n
    requires forall i, j :: i in ks && j in ks && i != j ==> f(i) != f(j)
    requires forall i :: i in ks ==> f(i) < n
    ensures k in ks && f(k) == r
  {
    ImageSize(f, ks);
    EqualWhenFull(Image(f, ks), Interval(0, n));
    assert r in Interval(0, n);
    k :| k in ks && f(k) == r;
  }

  /** Every word below 2^32 is drawn within any 2^32 consecutive draws. */
  lemma DrawsCoverEveryWord(seed: nat, r: nat) returns (k: nat)
    requires seed < WORD && r < WORD
    ensures 1 <= k <= WORD && Lcg.Draw(seed, k) == r
  {
    var ks := Interval(1, WORD + 1);
    DrawsInjective(seed, ks);
    forall k: nat
      ensures Lcg.Draw(seed, k) < WORD
    {
      Lcg.DrawBound(seed, k);
    }
    k := Surjective((k: nat) => Lcg.Draw(seed, k), ks, WORD, r);
  }

  lemma DrawsInjective(seed: nat, ks: set<nat>)
    requires seed < WORD && ks <= Interval(1, WORD + 1)
    ensures forall i, j :: i in ks && j in ks && i != j ==> Lcg.Draw(seed, i) != Lcg.Draw(seed, j)
  {
    forall i, j | i in ks && j in ks && i != j
      ensures Lcg.Draw(seed, i) != Lcg.Draw(seed, j)
    {
      if i < j {
        Lcg.DistinctDraws(seed, i, j);
      } else {
        Lcg.DistinctDraws(seed, j, i);
      }
    }
  }

  lemma WinningDrawHolds(procs: seq<Proc>, seed: nat, i: nat, k: nat)
    requires i < |procs| && 0 < Tickets(procs) <= MAXINT
    ensures k in WinningDraws(procs, seed, i) <==>
            1 <= k <= WORD && Holds(procs, Rem(Lcg.Draw(seed, k), Tickets(procs)), i)
  {
    WinsIsBlock(procs, Lcg.Draw(seed, k) % Tickets(procs), i);
    RemIsMod(Lcg.Draw(seed, k), Tickets(procs));
  }

  /** The words that name one of the tickets of `i`. */
  ghost function TicketWords(procs: seq<Proc>, i: nat): set<nat>
    requires i < |procs| && Tickets(procs) > 0
  {
    Residues(WORD, Tickets(procs), Prefix(procs, i), Prefix(procs, i + 1))
  }

  lemma TicketWordIsWon(procs: seq<Proc>, seed: nat, i: nat, r: nat) returns (k: nat)
    requires seed < WORD && i < |procs|
    requires 0 < Tickets(procs) <= MAXINT
    requires r in TicketWords(procs, i)
    ensures k in WinningDraws(procs, seed, i) && Lcg.Draw(seed, k) == r
  {
    k := DrawsCoverEveryWord(seed, r);
    WinningDrawHolds(procs, seed, i, k);
  }

  lemma WonDrawIsTicketWord(procs: seq<Proc>, seed: nat, i: nat, k: nat)
    requires seed < WORD && i < |procs|
    requires 0 < Tickets(procs) <= MAXINT
    requires k in WinningDraws(procs, seed, i)
    ensures 1 <= k <= WORD && Lcg.Draw(seed, k) in TicketWords(procs, i)
  {
    WinningDrawHolds(procs, seed, i, k);
    Lcg.DrawBound(seed, k);
  }

  /** The draws that `i` wins and its ticket words are equally many. */
  lemma WinsAreTickets(procs: seq<Proc>, seed: nat, i: nat, wins: set<nat>, words: set<nat>)
    requires seed < WORD && i < |procs|
    requires 0 < Tickets(procs) <= MAXINT
    requires wins == WinningDraws(procs, seed, i) && words == TicketWords(procs, i)
    ensures |wins| == |words|
  {
    var f: nat -> nat := (k: nat) => Lcg.Draw(seed, k);
    forall k | k in wins
      ensures 1 <= k <= WORD && f(k) in words
    {
      WonDrawIsTicketWord(procs, seed, i, k);
    }
    forall r | r in words
      ensures exists k :: k in wins && f(k) == r
    {
      var k := TicketWordIsWon(procs, seed, i, r);
      assert f(k) == r;
    }
    assert Image(f, wins) == words;
    DrawsInjective(seed, wins);
    ImageSize(f, wins);
  }

  lemma WeightShare(procs: seq<Proc>, seed: nat, i: nat)
    requires seed < WORD && i < |procs|
    requires 0 < Tickets(procs) <= MAXINT
    ensures var rounds := WORD / Tickets(procs);
            rounds * Weight(procs[i]) <= |WinningDraws(procs, seed, i)| <= (rounds + 1) * Weight(procs[i])
  {
    WinsAreTickets(procs, seed, i, WinningDraws(procs, seed, i), TicketWords(procs, i));
    PrefixMonotone(procs, i + 1, |procs|);
    var rounds := WORD / Tickets(procs);
    ResidueCount(WORD, Tickets(procs), rounds, Prefix(procs, i), Prefix(procs, i + 1));
    assert (rounds + 1) * Weight(procs[i]) == rounds * Weight(procs[i]) + Weight(procs[i]);
  }

  /** Over any 2^32 consecutive draws on an unchanging table, slot `i` wins the share of its `tickets` field among those
      of the runnable slots, up to one extra round of its tickets. A field below one counts as one, and a slot that is
      not runnable wins nothing. */
  lemma LotteryShare(procs: seq<Proc>, seed: nat, i: nat)
    requires seed < WORD && i < |procs|
    requires 0 < TicketSum(procs) <= MAXINT
    ensures DrawTotal(procs) > 0
    ensures var rounds, won := WORD / TicketSum(procs), |WinningDraws(procs, seed, i)|;
            if procs[i].state != Runnable then won == 0
            else if procs[i].tickets >= 1 then rounds * procs[i].tickets <= won <= (rounds + 1) * procs[i].tickets
            else rounds <= won <= rounds + 1
  {
    PrefixIsSum(procs, |procs|);
    WeightShare(procs, seed, i);
  }

  /** On such a table every draw is won by exactly one slot. */
  lemma EachDrawHasOneWinner(procs: seq<Proc>, r: nat)
    requires r < Tickets(procs) <= MAXINT
    ensures exists i: nat :: Wins(procs, r, i) && forall j: nat :: Wins(procs, r, j) ==> j == i
  {
    var i := BlockExists(procs, r, |procs|);
    WinsIsBlock(procs, r, i);
  }
}
