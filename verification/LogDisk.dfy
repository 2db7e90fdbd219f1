/** The redo log on disk: `write_log`, `write_head`, `install_trans`, `commit` and `recover_from_log`, one block write
    at a time, and what a crash between any two writes leaves behind. */
module LogDisk {
  import opened Params

  const BWORDS: nat := 128

  /** A block, as the 32-bit words that the log header is made of. */
  type Block = b: seq<nat> | |b| == BWORDS witness seq(BWORDS, _ => 0)
  type Disk = seq<Block>

  /** Where the log lies: `size` blocks from `start`, the first one its header. */
  datatype Layout = Layout(start: nat, size: nat) {
    predicate InLog(b: nat) {
      start <= b < start + size
    }

    predicate Fits(disk: Disk) {
      size >= 1 && start + size <= |disk|
    }
  }

  // ---------- The header block ----------

  /** What `read_head` finds in a header block. */
  function Header(b: Block): seq<nat>
    requires b[0] <= LOGSIZE
  {
    b[1..1 + b[0]]
  }

  /** What `write_head` makes of a header block: the words past the last entry stay as they were. */
  function HeaderBlock(b: Block, lh: seq<nat>): Block
    requires |lh| <= LOGSIZE
  {
    [|lh|] + lh + b[1 + |lh|..]
  }

  /** Word 0 of the header block is the number of entries, and the entries follow it, on the way out and back. */
  lemma HeaderWords(b: Block, lh: seq<nat>, i: nat)
    requires |lh| <= LOGSIZE
    ensures HeaderBlock(b, lh)[0] == |lh| && (i < |lh| ==> HeaderBlock(b, lh)[1 + i] == lh[i])
    ensures b[0] <= LOGSIZE ==> |Header(b)| == b[0] && (i < b[0] ==> Header(b)[i] == b[1 + i])
  {
  }

  /** Block numbers that the log may hold: distinct home blocks, as many as it has room for. */
  predicate GoodHeader(l: Layout, disk: Disk, lh: seq<nat>) {
    && |lh| <= LOGSIZE && |lh| < l.size
    && (forall i :: 0 <= i < |lh| ==> lh[i] < |disk| && !l.InLog(lh[i]))
    && (forall i, j :: 0 <= i < j < |lh| ==> lh[i] != lh[j])
  }

  predicate GoodDisk(l: Layout, disk: Disk) {
    l.Fits(disk) && disk[l.start][0] <= LOGSIZE && GoodHeader(l, disk, Header(disk[l.start]))
  }

  /** A disk whose log is empty. */
  predicate Clean(l: Layout, disk: Disk) {
    GoodDisk(l, disk) && disk[l.start][0] == 0
  }

  // ---------- The disk after so many writes ----------

  /** After `write_log` has copied the first `k` blocks of `data`. */
  ghost function Logged(l: Layout, disk: Disk, data: seq<Block>, k: nat): (d: Disk)
    requires l.Fits(disk) && k <= |data| < l.size
    ensures |d| == |disk|
  {
    if k == 0 then disk else Logged(l, disk, data, k - 1)[l.start + k := data[k - 1]]
  }

  /** After `install_trans` has copied the first `k` log blocks home. */
  ghost function Installed(l: Layout, disk: Disk, lh: seq<nat>, k: nat): (d: Disk)
    requires l.Fits(disk) && GoodHeader(l, disk, lh) && k <= |lh|
    ensures |d| == |disk|
  {
    if k == 0 then disk else Installed(l, disk, lh, k - 1)[lh[k - 1] := disk[l.start + k]]
  }

  ghost function WithHeader(l: Layout, disk: Disk, lh: seq<nat>): (d: Disk)
    requires l.Fits(disk) && |lh| <= LOGSIZE
    ensures |d| == |disk|
  {
    disk[l.start := HeaderBlock(disk[l.start], lh)]
  }

  /** A transaction: the logged block numbers and the cached contents that `write_log` copies. */
  datatype Transaction = Transaction(lh: seq<nat>, data: seq<Block>)

  ghost predicate GoodTransaction(l: Layout, disk: Disk, t: Transaction) {
    l.Fits(disk) && GoodHeader(l, disk, t.lh) && |t.data| == |t.lh|
  }

  /** How many block writes `commit` makes. */
  function CommitWrites(t: Transaction): nat {
    if t.lh == [] then 0 else 2 * |t.lh| + 2
  }

  /** The disk after the first `k` block writes of `commit`. */
  ghost function Committing(l: Layout, disk: Disk, t: Transaction, k: nat): (d: Disk)
    requires GoodTransaction(l, disk, t) && k <= CommitWrites(t)
    ensures |d| == |disk|
  {
    var n := |t.lh|;
    if k <= n then Logged(l, disk, t.data, k)
    else
      var headed := WithHeader(l, Logged(l, disk, t.data, n), t.lh);
      if k <= 2 * n + 1 then Installed(l, headed, t.lh, k - n - 1)
      else WithHeader(l, Installed(l, headed, t.lh, n), [])
  }

  /** The disk after the first `k` block writes of `recover_from_log`. */
  ghost function Recovering(l: Layout, disk: Disk, k: nat): (d: Disk)
    requires GoodDisk(l, disk) && k <= disk[l.start][0] + 1
    ensures |d| == |disk|
  {
    var lh := Header(disk[l.start]);
    if k <= |lh| then Installed(l, disk, lh, k) else WithHeader(l, Installed(l, disk, lh, |lh|), [])
  }

  ghost function Recovered(l: Layout, disk: Disk): Disk
    requires GoodDisk(l, disk)
  {
    Recovering(l, disk, disk[l.start][0] + 1)
  }

  // ---------- Home blocks ----------

  /** The same contents outside the log. */
  ghost predicate SameHome(l: Layout, a: Disk, b: Disk) {
    |a| == |b| && forall i :: 0 <= i < |a| && !l.InLog(i) ==> a[i] == b[i]
  }

  /** `b` is `a` with the blocks of the transaction, and no others, replaced outside the log. */
  ghost predicate Overlaid(l: Layout, a: Disk, t: Transaction, b: Disk)
    requires GoodTransaction(l, a, t)
  {
    && |a| == |b|
    && (forall i :: 0 <= i < |t.lh| ==> b[t.lh[i]] == t.data[i])
    && (forall i :: 0 <= i < |a| && !l.InLog(i) && i !in t.lh ==> b[i] == a[i])
  }

  lemma {:induction false} LoggedAt(l: Layout, disk: Disk, data: seq<Block>, k: nat, i: nat)
    requires l.Fits(disk) && k <= |data| < l.size && i < |disk|
    ensures Logged(l, disk, data, k)[i] ==
            if l.start < i <= l.start + k then data[i - l.start - 1] else disk[i]
  {
    if k > 0 {
      LoggedAt(l, disk, data, k - 1, i);
    }
  }

  lemma {:induction false} InstalledAt(l: Layout, disk: Disk, lh: seq<nat>, k: nat, i: nat)
    requires l.Fits(disk) && GoodHeader(l, disk, lh) && k <= |lh| && i < |disk|
    ensures i !in lh[..k] ==> Installed(l, disk, lh, k)[i] == disk[i]
    ensures forall j :: 0 <= j < k && lh[j] == i ==> Installed(l, disk, lh, k)[i] == disk[l.start + j + 1]
  {
    if k > 0 {
      InstalledAt(l, disk, lh, k - 1, i);
      assert lh[..k] == lh[..k - 1] + [lh[k - 1]];
    }
  }

  lemma PrefixNext(lh: seq<nat>, k: nat)
    requires k < |lh|
    ensures forall b :: b in lh[..k + 1] <==> b in lh[..k] || b == lh[k]
  {
    assert lh[..k + 1] == lh[..k] + [lh[k]];
  }

  lemma HeaderRoundTrip(b: Block, lh: seq<nat>)
    requires |lh| <= LOGSIZE
    ensures HeaderBlock(b, lh)[0] == |lh| && Header(HeaderBlock(b, lh)) == lh
  {
  }

  /** Installing leaves the log, header included, alone. */
  lemma InstalledKeepsLog(l: Layout, disk: Disk, lh: seq<nat>, k: nat)
    requires l.Fits(disk) && GoodHeader(l, disk, lh) && k <= |lh|
    ensures forall i :: l.start <= i < l.start + l.size ==> Installed(l, disk, lh, k)[i] == disk[i]
  {
    forall i | l.start <= i < l.start + l.size
      ensures Installed(l, disk, lh, k)[i] == disk[i]
    {
      InstalledAt(l, disk, lh, k, i);
      assert i !in lh[..k];
    }
  }

  /** Installing again over a partial installation gives the same disk. */
  lemma InstallAgain(l: Layout, disk: Disk, lh: seq<nat>, j: nat, k: nat)
    requires l.Fits(disk) && GoodHeader(l, disk, lh) && j <= |lh| && k <= |lh|
    ensures Installed(l, Installed(l, disk, lh, j), lh, k) == Installed(l, disk, lh, if j < k then k else j)
  {
    var d := Installed(l, disk, lh, j);
    var m := if j < k then k else j;
    InstalledKeepsLog(l, disk, lh, j);
    forall i | 0 <= i < |disk|
      ensures Installed(l, d, lh, k)[i] == Installed(l, disk, lh, m)[i]
    {
      InstalledAt(l, d, lh, k, i);
      InstalledAt(l, disk, lh, j, i);
      InstalledAt(l, disk, lh, m, i);
      if i in lh[..m] {
        var e :| 0 <= e < m && lh[e] == i;
        assert e < j ==> lh[..j][e] == i;
        assert e < k ==> lh[..k][e] == i;
        if e >= k {
          assert i !in lh[..k];
        }
        if e >= j {
          assert i !in lh[..j];
        }
      }
    }
  }

  // ---------- Crashes ----------

  lemma GoodHeaderAnywhere(l: Layout, a: Disk, b: Disk, lh: seq<nat>)
    requires |a| == |b| && GoodHeader(l, a, lh)
    ensures GoodHeader(l, b, lh)
  {
  }

  /** An interrupted recovery leaves a disk that recovers to the same home blocks. */
  lemma RecoveryRestartable(l: Layout, disk: Disk, k: nat)
    requires GoodDisk(l, disk) && k <= disk[l.start][0] + 1
    ensures GoodDisk(l, Recovering(l, disk, k))
    ensures SameHome(l, Recovered(l, Recovering(l, disk, k)), Recovered(l, disk))
  {
    var lh := Header(disk[l.start]);
    var d := Recovering(l, disk, k);
    if k <= |lh| {
      InstalledKeepsLog(l, disk, lh, k);
      InstallAgain(l, disk, lh, k, |lh|);
    } else {
      HeaderRoundTrip(Installed(l, disk, lh, |lh|)[l.start], []);
    }
  }

  lemma RecoveryCompletes(l: Layout, disk: Disk)
    requires GoodDisk(l, disk)
    ensures Clean(l, Recovered(l, disk))
  {
    var lh := Header(disk[l.start]);
    HeaderRoundTrip(Installed(l, disk, lh, |lh|)[l.start], []);
  }

  /** Up to the write of the header, a crashed commit recovers to the old home blocks. */
  lemma CrashBeforeHeader(l: Layout, disk: Disk, t: Transaction, k: nat)
    requires Clean(l, disk) && GoodTransaction(l, disk, t) && k <= |t.lh| && k <= CommitWrites(t)
    ensures GoodDisk(l, Committing(l, disk, t, k))
    ensures SameHome(l, Recovered(l, Committing(l, disk, t, k)), disk)
  {
    var d := Committing(l, disk, t, k);
    forall i | 0 <= i < |disk|
      ensures i == l.start || !l.InLog(i) ==> d[i] == disk[i]
    {
      LoggedAt(l, disk, t.data, k, i);
    }
  }

  lemma HeadedGood(l: Layout, disk: Disk, t: Transaction, headed: Disk)
    requires GoodTransaction(l, disk, t)
    requires headed == WithHeader(l, Logged(l, disk, t.data, |t.lh|), t.lh)
    ensures Header(headed[l.start]) == t.lh && GoodDisk(l, headed)
  {
    HeaderRoundTrip(Logged(l, disk, t.data, |t.lh|)[l.start], t.lh);
    GoodHeaderAnywhere(l, disk, headed, t.lh);
  }

  lemma HeadedAt(l: Layout, disk: Disk, t: Transaction, headed: Disk, i: nat)
    requires GoodTransaction(l, disk, t) && i < |disk| && i != l.start
    requires headed == WithHeader(l, Logged(l, disk, t.data, |t.lh|), t.lh)
    ensures headed[i] == if l.start < i <= l.start + |t.lh| then t.data[i - l.start - 1] else disk[i]
  {
    LoggedAt(l, disk, t.data, |t.lh|, i);
  }

  lemma {:induction false} InstalledHome(l: Layout, disk: Disk, lh: seq<nat>, k: nat, j: nat)
    requires l.Fits(disk) && GoodHeader(l, disk, lh) && j < k <= |lh|
    ensures Installed(l, disk, lh, k)[lh[j]] == disk[l.start + j + 1]
  {
    if j < k - 1 {
      InstalledHome(l, disk, lh, k - 1, j);
      assert lh[j] != lh[k - 1];
    }
  }

  lemma HeadedHome(l: Layout, disk: Disk, t: Transaction, headed: Disk, j: nat)
    requires GoodTransaction(l, disk, t) && j < |t.lh|
    requires headed == WithHeader(l, Logged(l, disk, t.data, |t.lh|), t.lh) && GoodHeader(l, headed, t.lh)
    ensures Installed(l, headed, t.lh, |t.lh|)[t.lh[j]] == t.data[j]
  {
    InstalledHome(l, headed, t.lh, |t.lh|, j);
    HeadedAt(l, disk, t, headed, l.start + j + 1);
  }

  lemma HeadedElsewhere(l: Layout, disk: Disk, t: Transaction, headed: Disk, i: nat)
    requires GoodTransaction(l, disk, t) && i < |disk| && !l.InLog(i) && i !in t.lh
    requires headed == WithHeader(l, Logged(l, disk, t.data, |t.lh|), t.lh) && GoodHeader(l, headed, t.lh)
    ensures Installed(l, headed, t.lh, |t.lh|)[i] == disk[i]
  {
    InstalledAt(l, headed, t.lh, |t.lh|, i);
    HeadedAt(l, disk, t, headed, i);
  }

  /** With the header written, the disk holds the transaction whole: in the log, at home, or both. */
  lemma HeadedInstalls(l: Layout, disk: Disk, t: Transaction, headed: Disk)
    requires GoodTransaction(l, disk, t)
    requires headed == WithHeader(l, Logged(l, disk, t.data, |t.lh|), t.lh) && GoodHeader(l, headed, t.lh)
    ensures Overlaid(l, disk, t, Installed(l, headed, t.lh, |t.lh|))
  {
    forall i | 0 <= i < |disk| && !l.InLog(i) && i !in t.lh
      ensures Installed(l, headed, t.lh, |t.lh|)[i] == disk[i]
    {
      HeadedElsewhere(l, disk, t, headed, i);
    }
    forall j | 0 <= j < |t.lh|
      ensures Installed(l, headed, t.lh, |t.lh|)[t.lh[j]] == t.data[j]
    {
      HeadedHome(l, disk, t, headed, j);
    }
  }

  /** Interrupting the installation of a good disk does not change what it recovers to. */
  lemma InstallInterrupted(l: Layout, disk: Disk, j: nat)
    requires GoodDisk(l, disk) && j <= disk[l.start][0]
    ensures var lh := Header(disk[l.start]);
            && GoodDisk(l, Installed(l, disk, lh, j))
            && Recovered(l, Installed(l, disk, lh, j)) == WithHeader(l, Installed(l, disk, lh, |lh|), [])
  {
    var lh := Header(disk[l.start]);
    InstalledKeepsLog(l, disk, lh, j);
    InstallAgain(l, disk, lh, j, |lh|);
  }

  lemma OverlaidDespiteHeader(l: Layout, disk: Disk, t: Transaction, d: Disk)
    requires GoodTransaction(l, disk, t) && Overlaid(l, disk, t, d) && l.Fits(d)
    ensures Overlaid(l, disk, t, WithHeader(l, d, []))
  {
  }

  lemma ClearedRecovers(l: Layout, d: Disk)
    requires l.Fits(d)
    ensures var cleared := WithHeader(l, d, []);
            GoodDisk(l, cleared) && Recovered(l, cleared) == WithHeader(l, cleared, [])
  {
    HeaderRoundTrip(d[l.start], []);
  }

  lemma CrashInstalling(l: Layout, disk: Disk, t: Transaction, headed: Disk, j: nat)
    requires GoodTransaction(l, disk, t) && j <= |t.lh|
    requires headed == WithHeader(l, Logged(l, disk, t.data, |t.lh|), t.lh) && GoodHeader(l, headed, t.lh)
    ensures GoodDisk(l, Installed(l, headed, t.lh, j))
    ensures Overlaid(l, disk, t, Recovered(l, Installed(l, headed, t.lh, j)))
  {
    HeadedGood(l, disk, t, headed);
    HeadedInstalls(l, disk, t, headed);
    OverlaidDespiteHeader(l, disk, t, Installed(l, headed, t.lh, |t.lh|));
    InstallInterrupted(l, headed, j);
  }

  lemma CrashCleared(l: Layout, disk: Disk, t: Transaction, installed: Disk)
    requires GoodTransaction(l, disk, t) && l.Fits(installed) && Overlaid(l, disk, t, installed)
    ensures GoodDisk(l, WithHeader(l, installed, []))
    ensures Overlaid(l, disk, t, Recovered(l, WithHeader(l, installed, [])))
  {
    ClearedRecovers(l, installed);
    OverlaidDespiteHeader(l, disk, t, installed);
    OverlaidDespiteHeader(l, disk, t, WithHeader(l, installed, []));
  }

  /** From the write of the header on, a crashed commit recovers to the new home blocks. */
  lemma CrashAfterHeader(l: Layout, disk: Disk, t: Transaction, k: nat)
    requires Clean(l, disk) && GoodTransaction(l, disk, t) && |t.lh| < k <= CommitWrites(t)
    ensures GoodDisk(l, Committing(l, disk, t, k))
    ensures Overlaid(l, disk, t, Recovered(l, Committing(l, disk, t, k)))
  {
    var n := |t.lh|;
    var headed := WithHeader(l, Logged(l, disk, t.data, n), t.lh);
    GoodHeaderAnywhere(l, disk, headed, t.lh);
    if k <= 2 * n + 1 {
      CrashInstalling(l, disk, t, headed, k - n - 1);
    } else {
      HeadedInstalls(l, disk, t, headed);
      CrashCleared(l, disk, t, Installed(l, headed, t.lh, n));
    }
  }

  /** The disk after recovery has been started and cut short by a crash, again and again: `attempts[i]` block
      writes were made by the i-th attempt. */
  ghost function Attempted(l: Layout, disk: Disk, attempts: seq<nat>): Disk
    requires GoodDisk(l, disk)
    ensures |Attempted(l, disk, attempts)| == |disk| && GoodDisk(l, Attempted(l, disk, attempts))
    decreases |attempts|
  {
    if attempts == [] then disk
    else
      var k := attempts[0];
      var made := if k <= disk[l.start][0] + 1 then k else disk[l.start][0] + 1;
      RecoveryRestartable(l, disk, made);
      Attempted(l, Recovering(l, disk, made), attempts[1..])
  }

  lemma {:induction false} AttemptsKeepHome(l: Layout, disk: Disk, attempts: seq<nat>)
    requires GoodDisk(l, disk)
    ensures SameHome(l, Recovered(l, Attempted(l, disk, attempts)), Recovered(l, disk))
    decreases |attempts|
  {
    if attempts != [] {
      var k := attempts[0];
      var made := if k <= disk[l.start][0] + 1 then k else disk[l.start][0] + 1;
      RecoveryRestartable(l, disk, made);
      AttemptsKeepHome(l, Recovering(l, disk, made), attempts[1..]);
    }
  }

  /** Crash atomicity: stop `commit` after any number `k` of its block writes, stop recovery any number of times
      after any of its own, and let a recovery finish. The home blocks are then all old, or all as `write_log`
      copied them, and which one depends only on whether the header was written. */
  lemma CrashAtomicity(l: Layout, disk: Disk, t: Transaction, k: nat, attempts: seq<nat>)
    requires Clean(l, disk) && GoodTransaction(l, disk, t) && k <= CommitWrites(t)
    ensures GoodDisk(l, Committing(l, disk, t, k))
    ensures var d := Recovered(l, Attempted(l, Committing(l, disk, t, k), attempts));
            && Clean(l, d)
            && if k <= |t.lh| then SameHome(l, d, disk) else Overlaid(l, disk, t, d)
  {
    if k <= |t.lh| {
      CrashBeforeHeader(l, disk, t, k);
    } else {
      CrashAfterHeader(l, disk, t, k);
    }
    AttemptsKeepHome(l, Committing(l, disk, t, k), attempts);
    RecoveryCompletes(l, Attempted(l, Committing(l, disk, t, k), attempts));
    if k > |t.lh| {
      assert forall i :: 0 <= i < |t.lh| ==> !l.InLog(t.lh[i]);
    }
  }

  /** A commit that is not interrupted leaves an empty log and the new home blocks. */
  lemma CommitCompletes(l: Layout, disk: Disk, t: Transaction)
    requires Clean(l, disk) && GoodTransaction(l, disk, t)
    ensures Clean(l, Committing(l, disk, t, CommitWrites(t)))
    ensures Overlaid(l, disk, t, Committing(l, disk, t, CommitWrites(t)))
  {
    var n := |t.lh|;
    if n > 0 {
      var headed := WithHeader(l, Logged(l, disk, t.data, n), t.lh);
      HeadedGood(l, disk, t, headed);
      HeadedInstalls(l, disk, t, headed);
      HeaderRoundTrip(Installed(l, headed, t.lh, n)[l.start], []);
      OverlaidDespiteHeader(l, disk, t, Installed(l, headed, t.lh, n));
    }
  }

  // ---------- Histories ----------

  /** A transaction that ran to its end, or was cut after `k` block writes and followed by the given attempts at
      recovery and one that finished. */
  datatype Event =
    | Finishes(t: Transaction)
    | Crashes(t: Transaction, k: nat, attempts: seq<nat>)

  ghost predicate Possible(l: Layout, disk: Disk, e: Event) {
    GoodTransaction(l, disk, e.t) && (e.Crashes? ==> e.k <= CommitWrites(e.t))
  }

  ghost function After(l: Layout, disk: Disk, e: Event): (d: Disk)
    requires Clean(l, disk) && Possible(l, disk, e)
    ensures Clean(l, d) && |d| == |disk|
  {
    match e
    case Finishes(t) => CommitCompletes(l, disk, t); Committing(l, disk, t, CommitWrites(t))
    case Crashes(t, k, attempts) =>
      CrashAtomicity(l, disk, t, k, attempts);
      Recovered(l, Attempted(l, Committing(l, disk, t, k), attempts))
  }

  /** The blocks of a transaction written straight to their homes. */
  ghost function Overwrite(home: Disk, t: Transaction, k: nat): (d: Disk)
    requires k <= |t.lh| == |t.data| && forall i :: 0 <= i < |t.lh| ==> t.lh[i] < |home|
    ensures |d| == |home|
  {
    if k == 0 then home else Overwrite(home, t, k - 1)[t.lh[k - 1] := t.data[k - 1]]
  }

  /** Whether the transaction of an event takes effect: it finished, or its header had been written. */
  predicate TakesEffect(e: Event) {
    e.Finishes? || e.k > |e.t.lh|
  }

  /** The home blocks if each transaction happened at once, or not at all. */
  ghost function Atomically(l: Layout, home: Disk, events: seq<Event>): (d: Disk)
    requires forall e :: e in events ==> Possible(l, home, e)
    ensures |d| == |home|
    decreases |events|
  {
    if events == [] then home
    else
      var e := events[0];
      assert e in events && Possible(l, home, e);
      var next := if TakesEffect(e) then Overwrite(home, e.t, |e.t.lh|) else home;
      assert forall e :: e in events[1..] ==> Possible(l, next, e) by { PossibleAnywhere(l, home, next, events); }
      Atomically(l, next, events[1..])
  }

  /** The disk after a history of commits, crashes and recoveries. */
  ghost function History(l: Layout, disk: Disk, events: seq<Event>): (d: Disk)
    requires Clean(l, disk) && forall e :: e in events ==> Possible(l, disk, e)
    ensures Clean(l, d) && |d| == |disk|
    decreases |events|
  {
    if events == [] then disk
    else
      assert events[0] in events;
      var next := After(l, disk, events[0]);
      assert forall e :: e in events[1..] ==> Possible(l, next, e) by { PossibleAnywhere(l, disk, next, events); }
      History(l, next, events[1..])
  }

  lemma PossibleAnywhere(l: Layout, a: Disk, b: Disk, events: seq<Event>)
    requires |a| == |b| && forall e :: e in events ==> Possible(l, a, e)
    ensures forall e :: e in events ==> Possible(l, b, e)
  {
    forall e | e in events
      ensures Possible(l, b, e)
    {
      assert Possible(l, a, e);
    }
  }

  lemma HistoryFirst(l: Layout, disk: Disk, events: seq<Event>)
    requires Clean(l, disk) && events != [] && forall e :: e in events ==> Possible(l, disk, e)
    ensures Possible(l, disk, events[0])
    ensures var next := After(l, disk, events[0]);
            && (forall e :: e in events[1..] ==> Possible(l, next, e))
            && History(l, disk, events) == History(l, next, events[1..])
            && (|events| == 1 ==> History(l, disk, events) == next)
  {
    assert events[0] in events;
    PossibleAnywhere(l, disk, After(l, disk, events[0]), events);
  }

  lemma {:induction false} OverwriteAt(home: Disk, t: Transaction, k: nat, i: nat)
    requires k <= |t.lh| == |t.data| && i < |home|
    requires forall j :: 0 <= j < |t.lh| ==> t.lh[j] < |home|
    requires forall j, m :: 0 <= j < m < |t.lh| ==> t.lh[j] != t.lh[m]
    ensures i !in t.lh[..k] ==> Overwrite(home, t, k)[i] == home[i]
    ensures forall j :: 0 <= j < k && t.lh[j] == i ==> Overwrite(home, t, k)[i] == t.data[j]
  {
    if k > 0 {
      OverwriteAt(home, t, k - 1, i);
      assert t.lh[..k] == t.lh[..k - 1] + [t.lh[k - 1]];
    }
  }

  lemma EventIsAtomic(l: Layout, disk: Disk, home: Disk, e: Event)
    requires Clean(l, disk) && Possible(l, disk, e) && Possible(l, home, e) && SameHome(l, disk, home)
    ensures SameHome(l, After(l, disk, e), if TakesEffect(e) then Overwrite(home, e.t, |e.t.lh|) else home)
  {
    match e {
      case Finishes(t) => CommitCompletes(l, disk, t);
      case Crashes(t, k, attempts) => CrashAtomicity(l, disk, t, k, attempts);
    }
    if TakesEffect(e) {
      var t := e.t;
      assert t.lh[..|t.lh|] == t.lh;
      forall i | 0 <= i < |disk| && !l.InLog(i)
        ensures After(l, disk, e)[i] == Overwrite(home, t, |t.lh|)[i]
      {
        OverwriteAt(home, t, |t.lh|, i);
        if i in t.lh {
          var j :| 0 <= j < |t.lh| && t.lh[j] == i;
        }
      }
    }
  }

  /** Over any history of transactions, crashes and recoveries, the home blocks are those of a disk on which each
      transaction happened at once or not at all. */
  lemma {:induction false} HistoryIsAtomic(l: Layout, disk: Disk, home: Disk, events: seq<Event>)
    requires Clean(l, disk) && SameHome(l, disk, home)
    requires forall e :: e in events ==> Possible(l, disk, e) && Possible(l, home, e)
    ensures SameHome(l, History(l, disk, events), Atomically(l, home, events))
    decreases |events|
  {
    if events != [] {
      var e := events[0];
      EventIsAtomic(l, disk, home, e);
      var disk' := After(l, disk, e);
      var home' := if TakesEffect(e) then Overwrite(home, e.t, |e.t.lh|) else home;
      PossibleAnywhere(l, disk, disk', events);
      PossibleAnywhere(l, home, home', events);
      HistoryIsAtomic(l, disk', home', events[1..]);
    }
  }

  // ---------- The code ----------

  /** The disk after each of the first `k` block writes of `commit`. */
  ghost function CommitTrace(l: Layout, disk: Disk, t: Transaction, k: nat): seq<Disk>
    requires GoodTransaction(l, disk, t) && k <= CommitWrites(t)
  {
    if k == 0 then [] else CommitTrace(l, disk, t, k - 1) + [Committing(l, disk, t, k)]
  }

  ghost function InstallTrace(l: Layout, disk: Disk, lh: seq<nat>, k: nat): seq<Disk>
    requires l.Fits(disk) && GoodHeader(l, disk, lh) && k <= |lh|
  {
    if k == 0 then [] else InstallTrace(l, disk, lh, k - 1) + [Installed(l, disk, lh, k)]
  }

  ghost function RecoveryTrace(l: Layout, disk: Disk, k: nat): seq<Disk>
    requires GoodDisk(l, disk) && k <= disk[l.start][0] + 1
  {
    if k == 0 then [] else RecoveryTrace(l, disk, k - 1) + [Recovering(l, disk, k)]
  }

  /** A block as the cache shows it: the modified buffer, or else the disk. */
  function View(disk: Disk, dirty: map<nat, Block>, b: nat): Block
    requires b < |disk|
  {
    if b in dirty then dirty[b] else disk[b]
  }

  ghost function Contents(disk: Disk, dirty: map<nat, Block>, lh: seq<nat>): (data: seq<Block>)
    requires forall i :: 0 <= i < |lh| ==> lh[i] < |disk|
    ensures |data| == |lh| && forall i :: 0 <= i < |lh| ==> data[i] == View(disk, dirty, lh[i])
  {
    if lh == [] then [] else Contents(disk, dirty, lh[..|lh| - 1]) + [View(disk, dirty, lh[|lh| - 1])]
  }

  /** Disk d has every modified buffer at its home, and every other home block as it is on `disk`. */
  ghost predicate BroughtHome(l: Layout, disk: Disk, dirty: map<nat, Block>, d: Disk) {
    && |d| == |disk|
    && forall b :: 0 <= b < |d| && !(l.start <= b < l.start + l.size) ==>
         d[b] == if b in dirty then dirty[b] else disk[b]
  }

  /** Committing the modified buffers of the logged blocks brings each of them home. */
  lemma CommittedHome(l: Layout, disk: Disk, dirty: map<nat, Block>, lh: seq<nat>)
    requires l.Fits(disk) && GoodHeader(l, disk, lh) && forall b :: b in dirty ==> b in lh
    ensures var t := Transaction(lh, Contents(disk, dirty, lh));
            Clean(l, disk) ==> BroughtHome(l, disk, dirty, Committing(l, disk, t, CommitWrites(t)))
  {
    var t := Transaction(lh, Contents(disk, dirty, lh));
    if Clean(l, disk) {
      CommitCompletes(l, disk, t);
      var d := Committing(l, disk, t, CommitWrites(t));
      forall b | 0 <= b < |disk| && !l.InLog(b)
        ensures d[b] == if b in dirty then dirty[b] else disk[b]
      {
        if b in lh {
          var i :| 0 <= i < |lh| && lh[i] == b;
          assert d[t.lh[i]] == t.data[i] == View(disk, dirty, lh[i]);
        }
      }
    }
  }

  /** `struct log` with its disk. `dirty` holds the modified buffers that `log_write` keeps in the cache, and
      `trace` is history: the disk after every block write. */
  class Log {
    const l: Layout
    var disk: Disk
    var dirty: map<nat, Block>
    var lh: seq<nat>
    ghost var trace: seq<Disk>

    constructor (layout: Layout, image: Disk)
      ensures l == layout && disk == image && dirty == map[] && lh == [] && trace == []
    {
      l, disk, dirty, lh, trace := layout, image, map[], [], [];
    }

    /** The modified buffers are those of logged blocks, and logged blocks are distinct home blocks. */
    ghost predicate Valid()
      reads this
    {
      && l.Fits(disk) && GoodHeader(l, disk, lh)
      && forall b :: b in dirty ==> b in lh
    }

    function Bread(b: nat): Block
      requires b < |disk|
      reads this
    {
      View(disk, dirty, b)
    }

    method Bwrite(b: nat, data: Block)
      requires b < |disk|
      modifies this`disk, this`dirty, this`trace
      ensures disk == old(disk)[b := data] && dirty == old(dirty) - {b} && trace == old(trace) + [disk]
    {
      disk := disk[b := data];
      dirty := dirty - {b};
      trace := trace + [disk];
    }

    ghost function Pending(): (t: Transaction)
      reads this
      requires Valid()
      ensures GoodTransaction(l, disk, t) && t.lh == lh
    {
      Transaction(lh, Contents(disk, dirty, lh))
    }

    /** `log_write`: the block is logged once however often it is written. */
    method LogWrite(b: nat, data: Block, outstanding: nat) returns (panics: bool)
      requires Valid() && b < |disk| && !l.InLog(b)
      modifies this`lh, this`dirty
      ensures Valid()
      ensures panics <==> |old(lh)| >= LOGSIZE || |old(lh)| >= l.size - 1 || outstanding < 1
      ensures panics ==> lh == old(lh) && dirty == old(dirty)
      ensures !panics ==> lh == (if b in old(lh) then old(lh) else old(lh) + [b]) && dirty == old(dirty)[b := data]
    {
      panics := |lh| >= LOGSIZE || |lh| >= l.size - 1 || outstanding < 1;
      if panics {
        return;
      }
      var i := 0;
      while i < |lh| && lh[i] != b
        invariant i <= |lh| && b !in lh[..i]
      {
        i := i + 1;
      }
      if i == |lh| {
        assert lh[..i] == lh;
        lh := lh + [b];
      } else {
        lh := lh[i := b];
        assert lh == old(lh);
      }
      dirty := dirty[b := data];
    }

    method WriteHead()
      requires l.Fits(disk) && |lh| <= LOGSIZE && l.start !in dirty
      modifies this`disk, this`dirty, this`trace
      ensures disk == WithHeader(l, old(disk), lh) && dirty == old(dirty) && trace == old(trace) + [disk]
    {
      var oldBlock := Bread(l.start);
      var hb: Block := oldBlock[0 := |lh|];
      for i := 0 to |lh|
        invariant |hb| == BWORDS
        invariant hb == [|lh|] + lh[..i] + oldBlock[1 + i..]
      {
        hb := hb[1 + i := lh[i]];
        assert hb == [|lh|] + lh[..i + 1] + oldBlock[1 + (i + 1)..];
      }
      assert lh[..|lh|] == lh;
      Bwrite(l.start, hb);
      assert old(dirty) - {l.start} == old(dirty);
    }

    method ReadHead()
      requires GoodDisk(l, disk) && l.start !in dirty
      modifies this`lh
      ensures lh == Header(disk[l.start])
    {
      var hb := Bread(l.start);
      lh := [];
      for i := 0 to hb[0]
        invariant lh == hb[1..1 + i]
      {
        lh := lh + [hb[1 + i]];
      }
    }

    /** One block of `write_log`, over the disk d it started with. */
    method CopyToLog(ghost d: Disk, ghost data: seq<Block>, tail: nat)
      requires l.Fits(d) && GoodHeader(l, d, lh) && tail < |lh| == |data| && (forall b :: b in dirty ==> b in lh)
      requires disk == Logged(l, d, data, tail) && data[tail] == View(d, dirty, lh[tail])
      modifies this`disk, this`dirty, this`trace
      ensures dirty == old(dirty) && disk == Logged(l, d, data, tail + 1) && trace == old(trace) + [disk]
    {
      LoggedAt(l, d, data, tail, lh[tail]);
      var block := Bread(lh[tail]);
      Bwrite(l.start + tail + 1, block);
      assert old(dirty) - {l.start + tail + 1} == old(dirty);
    }

    /** `write_log`: copy the cached contents of the logged blocks into the log. */
    method WriteLog()
      requires Valid()
      modifies this`disk, this`dirty, this`trace
      ensures dirty == old(dirty)
      ensures disk == Logged(l, old(disk), old(Pending()).data, |lh|)
      ensures |lh| <= CommitWrites(old(Pending()))
      ensures trace == old(trace) + CommitTrace(l, old(disk), old(Pending()), |lh|)
    {
      ghost var t := Pending();
      for tail := 0 to |lh|
        invariant dirty == old(dirty) && |disk| == |old(disk)| && tail <= CommitWrites(t)
        invariant disk == Logged(l, old(disk), t.data, tail)
        invariant trace == old(trace) + CommitTrace(l, old(disk), t, tail)
      {
        CopyToLog(old(disk), t.data, tail);
      }
    }

    /** `install_trans`: copy the log blocks home. */
    method InstallTrans()
      requires l.Fits(disk) && GoodHeader(l, disk, lh) && forall b :: b in dirty ==> !l.InLog(b)
      modifies this`disk, this`dirty, this`trace
      ensures disk == Installed(l, old(disk), lh, |lh|)
      ensures forall b :: b in dirty <==> b in old(dirty) && b !in lh
      ensures forall b :: b in dirty ==> dirty[b] == old(dirty)[b]
      ensures trace == old(trace) + InstallTrace(l, old(disk), lh, |lh|)
    {
      for tail := 0 to |lh|
        invariant |disk| == |old(disk)| && disk == Installed(l, old(disk), lh, tail)
        invariant forall b :: b in dirty <==> b in old(dirty) && b !in lh[..tail]
        invariant forall b :: b in dirty ==> dirty[b] == old(dirty)[b]
        invariant trace == old(trace) + InstallTrace(l, old(disk), lh, tail)
      {
        InstalledKeepsLog(l, old(disk), lh, tail);
        var data := Bread(l.start + tail + 1);
        Bwrite(lh[tail], data);
        PrefixNext(lh, tail);
      }
      assert lh[..|lh|] == lh;
    }

    /** The block writes of `commit`: exactly those of `Committing`, in order. */
    method CommitBlocks()
      requires Valid() && |lh| > 0
      modifies this`disk, this`dirty, this`lh, this`trace
      ensures Valid() && lh == [] && dirty == map[]
      ensures var t := old(Pending());
              && disk == Committing(l, old(disk), t, CommitWrites(t))
              && trace == old(trace) + CommitTrace(l, old(disk), t, CommitWrites(t))
    {
      ghost var t := Pending();
      WriteLog();
      WriteHead();
      ghost var headed := disk;
      InstallTrans();
      ghost var installed := disk;
      lh := [];
      WriteHead();
      CommitTraceParts(l, old(disk), t, headed, installed);
      TraceJoin(old(trace), CommitTrace(l, old(disk), t, |t.lh|), headed, InstallTrace(l, headed, t.lh, |t.lh|), disk);
      assert dirty == map[];
    }

    /** `commit`: with nothing logged it writes nothing. On a disk with an empty log, what its writes come to is that
        every modified buffer is at its home and every other home block is as it was. */
    method Commit()
      requires Valid()
      modifies this`disk, this`dirty, this`lh, this`trace
      ensures Valid() && lh == [] && dirty == map[]
      ensures var t := old(Pending());
              && disk == Committing(l, old(disk), t, CommitWrites(t))
              && trace == old(trace) + CommitTrace(l, old(disk), t, CommitWrites(t))
      ensures old(Clean(l, disk)) ==> BroughtHome(l, old(disk), old(dirty), disk)
    {
      CommittedHome(l, disk, dirty, lh);
      if |lh| > 0 {
        CommitBlocks();
      } else {
        assert dirty == map[];
      }
    }

    /** `recover_from_log`. */
    method Recover()
      requires GoodDisk(l, disk) && dirty == map[]
      modifies this`disk, this`dirty, this`lh, this`trace
      ensures Valid() && lh == [] && dirty == map[]
      ensures disk == Recovered(l, old(disk))
      ensures trace == old(trace) + RecoveryTrace(l, old(disk), old(disk)[l.start][0] + 1)
    {
      ReadHead();
      InstallTrans();
      RecoveryTraceIsInstall(l, old(disk), |lh|);
      assert dirty == map[];
      lh := [];
      WriteHead();
    }
  }

  lemma {:induction false} CommitTraceInstalls(l: Layout, disk: Disk, t: Transaction, headed: Disk, k: nat)
    requires GoodTransaction(l, disk, t) && t.lh != [] && k <= |t.lh|
    requires headed == Committing(l, disk, t, |t.lh| + 1) && GoodHeader(l, headed, t.lh)
    ensures CommitTrace(l, disk, t, |t.lh| + 1 + k) ==
            CommitTrace(l, disk, t, |t.lh| + 1) + InstallTrace(l, headed, t.lh, k)
  {
    if k > 0 {
      CommitTraceInstalls(l, disk, t, headed, k - 1);
      assert |t.lh| + 1 + k - 1 == |t.lh| + 1 + (k - 1);
      assert Committing(l, disk, t, |t.lh| + 1 + k) == Installed(l, headed, t.lh, k);
    }
  }

  lemma TraceJoin(trace: seq<Disk>, a: seq<Disk>, d: Disk, b: seq<Disk>, e: Disk)
    ensures trace + a + [d] + b + [e] == trace + (a + [d] + b + [e])
  {
  }

  /** The writes of a whole commit: the log, the header, the installation, the cleared header. */
  lemma CommitTraceParts(l: Layout, disk: Disk, t: Transaction, headed: Disk, installed: Disk)
    requires GoodTransaction(l, disk, t) && t.lh != []
    requires headed == WithHeader(l, Logged(l, disk, t.data, |t.lh|), t.lh) && GoodHeader(l, headed, t.lh)
    requires installed == Installed(l, headed, t.lh, |t.lh|)
    ensures CommitTrace(l, disk, t, CommitWrites(t)) ==
            CommitTrace(l, disk, t, |t.lh|) + [headed] + InstallTrace(l, headed, t.lh, |t.lh|)
            + [WithHeader(l, installed, [])]
  {
    CommitTraceInstalls(l, disk, t, headed, |t.lh|);
  }

  lemma {:induction false} RecoveryTraceIsInstall(l: Layout, disk: Disk, k: nat)
    requires GoodDisk(l, disk) && k <= disk[l.start][0]
    ensures RecoveryTrace(l, disk, k) == InstallTrace(l, disk, Header(disk[l.start]), k)
  {
    if k > 0 {
      RecoveryTraceIsInstall(l, disk, k - 1);
    }
  }
}
