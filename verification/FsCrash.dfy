/** Crashes under a file: the transactions of filewrite, committed through the redo log, leave on the disk a whole
    number of chunks, wherever a crash cuts them. */
module FsCrash {
  import opened FsBlocks
  import opened FsLayout
  import opened Fs
  import opened Params
  import LogDisk

  // ---------- The file system on the disk ----------

  /** How blocks of the file system look to the log; any format will do. */
  datatype Format = Format(data: Block -> LogDisk.Block, bits: MapBlock -> LogDisk.Block,
                           inodes: seq<Inode> -> LogDisk.Block)

  /** Where mkfs puts the log, the inodes and the free map. */
  datatype Super = Super(log: LogDisk.Layout, inodestart: nat, bmapstart: nat)

  function InodeBlocks(m: Media): nat {
    (|m.dinodes| + IPB - 1) / IPB
  }

  /** Block x belongs to the file system. */
  predicate Exists(g: Geometry, m: Media, x: Logged) {
    match x
    case MapOf(k) => k < |m.bitmap|
    case DataOf(b) => g.meta <= b < g.size && b < |m.data|
    case InodeOf(k) => k < InodeBlocks(m)
  }

  function BlockNo(sb: Super, x: Logged): nat {
    match x
    case MapOf(k) => sb.bmapstart + k
    case DataOf(b) => b
    case InodeOf(k) => sb.inodestart + k
  }

  /** The inodes of inode block k. */
  function InodesOf(m: Media, k: nat): seq<Inode>
    requires k < InodeBlocks(m)
  {
    m.dinodes[k * IPB..if (k + 1) * IPB < |m.dinodes| then (k + 1) * IPB else |m.dinodes|]
  }

  function BlockOf(fmt: Format, g: Geometry, m: Media, x: Logged): LogDisk.Block
    requires Exists(g, m, x)
  {
    match x
    case MapOf(k) => fmt.bits(m.bitmap[k])
    case DataOf(b) => fmt.data(m.data[b])
    case InodeOf(k) => fmt.inodes(InodesOf(m, k))
  }

  /** The log, the inodes, the free map and the data follow one another, and a transaction of filewrite fits the log. */
  predicate GoodSuper(sb: Super, g: Geometry, m: Media) {
    && MAXOPBLOCKS < sb.log.size && sb.log.start + sb.log.size <= sb.inodestart
    && sb.inodestart + InodeBlocks(m) <= sb.bmapstart && sb.bmapstart + |m.bitmap| <= g.meta <= g.size
  }

  /** If block x belongs to the file system m, its home block holds it. */
  ghost predicate HoldsAt(fmt: Format, sb: Super, g: Geometry, disk: LogDisk.Disk, m: Media, x: Logged)
    requires g.size <= |disk| && GoodSuper(sb, g, m)
  {
    Exists(g, m, x) ==> disk[BlockNo(sb, x)] == BlockOf(fmt, g, m, x)
  }

  /** The home blocks of the disk hold the file system m. */
  ghost predicate Represents(fmt: Format, sb: Super, g: Geometry, disk: LogDisk.Disk, m: Media) {
    g.size <= |disk| && GoodSuper(sb, g, m) && forall x :: HoldsAt(fmt, sb, g, disk, m, x)
  }

  lemma Places(sb: Super, g: Geometry, m: Media, x: Logged)
    requires GoodSuper(sb, g, m) && Exists(g, m, x)
    ensures BlockNo(sb, x) < g.size && !sb.log.InLog(BlockNo(sb, x))
  {
  }

  lemma OnePlace(sb: Super, g: Geometry, m: Media, x: Logged, y: Logged)
    requires GoodSuper(sb, g, m) && Exists(g, m, x) && Exists(g, m, y) && BlockNo(sb, x) == BlockNo(sb, y)
    ensures x == y
  {
  }

  /** Different blocks look different. */
  ghost predicate Readable(fmt: Format) {
    && (forall a, b :: fmt.data(a) == fmt.data(b) ==> a == b)
    && (forall a, b :: fmt.bits(a) == fmt.bits(b) ==> a == b)
    && (forall a, b :: fmt.inodes(a) == fmt.inodes(b) ==> a == b)
  }

  /** In such a format the disk holds one file system only. */
  lemma OneFileSystem(fmt: Format, sb: Super, g: Geometry, disk: LogDisk.Disk, m: Media, w: Media)
    requires Readable(fmt) && Represents(fmt, sb, g, disk, m) && Represents(fmt, sb, g, disk, w)
    requires |m.data| == |w.data| && |m.bitmap| == |w.bitmap| && |m.dinodes| == |w.dinodes|
    ensures m.bitmap == w.bitmap && m.dinodes == w.dinodes
    ensures forall b :: g.meta <= b < g.size && b < |m.data| ==> m.data[b] == w.data[b]
  {
    forall k | 0 <= k < |m.bitmap|
      ensures m.bitmap[k] == w.bitmap[k]
    {
      assert HoldsAt(fmt, sb, g, disk, m, MapOf(k)) && HoldsAt(fmt, sb, g, disk, w, MapOf(k));
    }
    forall i | 0 <= i < |m.dinodes|
      ensures m.dinodes[i] == w.dinodes[i]
    {
      var k := i / IPB;
      assert HoldsAt(fmt, sb, g, disk, m, InodeOf(k)) && HoldsAt(fmt, sb, g, disk, w, InodeOf(k));
      assert InodesOf(m, k)[i - k * IPB] == InodesOf(w, k)[i - k * IPB];
    }
    forall b | g.meta <= b < g.size && b < |m.data|
      ensures m.data[b] == w.data[b]
    {
      assert HoldsAt(fmt, sb, g, disk, m, DataOf(b)) && HoldsAt(fmt, sb, g, disk, w, DataOf(b));
    }
  }

  // ---------- One transaction ----------

  /** xs lists what transaction op logs of the file system, in some order. */
  ghost predicate Lists(g: Geometry, m: Media, op: set<Logged>, xs: seq<Logged>) {
    && (forall x :: x in xs <==> x in op && Exists(g, m, x))
    && (forall j, k :: 0 <= j < k < |xs| ==> xs[j] != xs[k])
  }

  /** The blocks xs as m has them, as a transaction of the log. */
  ghost function TransactionOf(fmt: Format, sb: Super, g: Geometry, m: Media, xs: seq<Logged>): (t: LogDisk.Transaction)
    requires forall x :: x in xs ==> Exists(g, m, x)
    ensures |t.lh| == |t.data| == |xs|
    ensures forall j :: 0 <= j < |xs| ==> t.lh[j] == BlockNo(sb, xs[j]) && t.data[j] == BlockOf(fmt, g, m, xs[j])
  {
    LogDisk.Transaction(seq(|xs|, j requires 0 <= j < |xs| => BlockNo(sb, xs[j])),
                        seq(|xs|, j requires 0 <= j < |xs| => BlockOf(fmt, g, m, xs[j])))
  }

  lemma {:induction false} DistinctSize<T>(xs: seq<T>, s: set<T>)
    requires (forall x :: x in xs ==> x in s) && forall j, k :: 0 <= j < k < |xs| ==> xs[j] != xs[k]
    ensures |xs| <= |s|
    decreases |xs|
  {
    if xs != [] {
      var last, rest := xs[|xs| - 1], xs[..|xs| - 1];
      forall x | x in rest
        ensures x in s - {last}
      {
        var j :| 0 <= j < |rest| && rest[j] == x;
        assert xs[j] != last;
      }
      DistinctSize(rest, s - {last});
    }
  }

  lemma GoodTransaction(fmt: Format, sb: Super, g: Geometry, disk: LogDisk.Disk, m: Media, op: set<Logged>,
                        xs: seq<Logged>)
    requires GoodSuper(sb, g, m) && g.size <= |disk| && Lists(g, m, op, xs) && |op| <= MAXOPBLOCKS
    ensures LogDisk.GoodTransaction(sb.log, disk, TransactionOf(fmt, sb, g, m, xs))
  {
    DistinctSize(xs, op);
    var t := TransactionOf(fmt, sb, g, m, xs);
    forall j | 0 <= j < |t.lh|
      ensures t.lh[j] < |disk| && !sb.log.InLog(t.lh[j])
    {
      Places(sb, g, m, xs[j]);
    }
    forall j, k | 0 <= j < k < |t.lh|
      ensures t.lh[j] != t.lh[k]
    {
      if t.lh[j] == t.lh[k] {
        OnePlace(sb, g, m, xs[j], xs[k]);
      }
    }
  }

  /** A block that is not logged is the same before and after. */
  lemma Unlogged(fmt: Format, g: Geometry, a: Media, b: Media, op: set<Logged>, x: Logged)
    requires Journaled(a, b, op) && x !in op && Exists(g, a, x)
    ensures Exists(g, b, x) && BlockOf(fmt, g, a, x) == BlockOf(fmt, g, b, x)
  {
    if x.InodeOf? {
      var p, q := InodesOf(a, x.m), InodesOf(b, x.m);
      forall j | 0 <= j < |p|
        ensures p[j] == q[j]
      {
        assert (x.m * IPB + j) / IPB == x.m;
      }
      assert p == q;
    }
  }

  /** The home blocks after a transaction has taken effect hold the file system after it. */
  lemma EffectRepresents(fmt: Format, sb: Super, g: Geometry, disk: LogDisk.Disk, disk': LogDisk.Disk, a: Media,
                         b: Media,
                         op: set<Logged>, xs: seq<Logged>)
    requires Represents(fmt, sb, g, disk, a) && Journaled(a, b, op) && |op| <= MAXOPBLOCKS && Lists(g, b, op, xs)
    requires LogDisk.GoodTransaction(sb.log, disk, TransactionOf(fmt, sb, g, b, xs))
    requires LogDisk.Overlaid(sb.log, disk, TransactionOf(fmt, sb, g, b, xs), disk')
    ensures Represents(fmt, sb, g, disk', b)
  {
    var t := TransactionOf(fmt, sb, g, b, xs);
    forall x
      ensures HoldsAt(fmt, sb, g, disk', b, x)
    {
      if Exists(g, b, x) {
        Places(sb, g, b, x);
        if x in op {
          var j :| 0 <= j < |xs| && xs[j] == x;
          assert disk'[t.lh[j]] == t.data[j];
        } else {
          NotListed(fmt, sb, g, b, op, xs, x);
          Unlogged(fmt, g, a, b, op, x);
          assert HoldsAt(fmt, sb, g, disk, a, x);
        }
      }
    }
  }

  lemma NotListed(fmt: Format, sb: Super, g: Geometry, m: Media, op: set<Logged>, xs: seq<Logged>, x: Logged)
    requires GoodSuper(sb, g, m) && Lists(g, m, op, xs) && Exists(g, m, x) && x !in op
    ensures BlockNo(sb, x) !in TransactionOf(fmt, sb, g, m, xs).lh
  {
    var t := TransactionOf(fmt, sb, g, m, xs);
    forall j | 0 <= j < |t.lh|
      ensures t.lh[j] != BlockNo(sb, x)
    {
      assert xs[j] in xs;
      if t.lh[j] == BlockNo(sb, x) {
        OnePlace(sb, g, m, x, xs[j]);
      }
    }
  }

  lemma SameHomeRepresents(fmt: Format, sb: Super, g: Geometry, disk: LogDisk.Disk, disk': LogDisk.Disk, m: Media)
    requires Represents(fmt, sb, g, disk, m) && LogDisk.SameHome(sb.log, disk', disk)
    ensures Represents(fmt, sb, g, disk', m)
  {
    forall x
      ensures HoldsAt(fmt, sb, g, disk', m, x)
    {
      assert HoldsAt(fmt, sb, g, disk, m, x);
      if Exists(g, m, x) {
        Places(sb, g, m, x);
      }
    }
  }

  // ---------- The transactions of filewrite ----------

  /** Event e commits what op logs, as m has it, to the end or to a crash and its recoveries. */
  ghost predicate Commits(fmt: Format, sb: Super, g: Geometry, m: Media, op: set<Logged>, e: LogDisk.Event) {
    && (exists xs :: Lists(g, m, op, xs) && e.t == TransactionOf(fmt, sb, g, m, xs))
    && (e.Crashes? ==> e.k <= LogDisk.CommitWrites(e.t))
  }

  lemma EventRepresents(fmt: Format, sb: Super, g: Geometry, disk: LogDisk.Disk, a: Media, b: Media, op: set<Logged>,
                        e: LogDisk.Event)
    requires LogDisk.Clean(sb.log, disk) && Represents(fmt, sb, g, disk, a)
    requires Journaled(a, b, op) && |op| <= MAXOPBLOCKS && Commits(fmt, sb, g, b, op, e)
    ensures LogDisk.Possible(sb.log, disk, e)
    ensures Represents(fmt, sb, g, LogDisk.After(sb.log, disk, e), if LogDisk.TakesEffect(e) then b else a)
  {
    var xs :| Lists(g, b, op, xs) && e.t == TransactionOf(fmt, sb, g, b, xs);
    GoodTransaction(fmt, sb, g, disk, b, op, xs);
    var disk' := LogDisk.After(sb.log, disk, e);
    match e {
      case Finishes(t) => LogDisk.CommitCompletes(sb.log, disk, t);
      case Crashes(t, k, attempts) => LogDisk.CrashAtomicity(sb.log, disk, t, k, attempts);
    }
    if LogDisk.TakesEffect(e) {
      EffectRepresents(fmt, sb, g, disk, disk', a, b, op, xs);
    } else {
      SameHomeRepresents(fmt, sb, g, disk, disk', a);
    }
  }

  /** Event j commits transaction s + j. */
  ghost predicate CommitsAt(fmt: Format, sb: Super, g: Geometry, disks: seq<Media>, ops: seq<set<Logged>>, s: nat,
                            events: seq<LogDisk.Event>, j: nat)
    requires |disks| == |ops| + 1 && j < |events| && s + |events| <= |ops|
  {
    Commits(fmt, sb, g, disks[s + j + 1], ops[s + j], events[j])
  }

  /** The events commit the transactions from number s on, one after the other, and only the last may crash. */
  ghost predicate Runs(fmt: Format, sb: Super, g: Geometry, disks: seq<Media>, ops: seq<set<Logged>>, s: nat,
                       events: seq<LogDisk.Event>) {
    && |disks| == |ops| + 1 && s + |events| <= |ops|
    && (forall j :: 0 <= j < |events| ==> CommitsAt(fmt, sb, g, disks, ops, s, events, j))
    && (forall j :: 0 <= j < |events| - 1 ==> events[j].Finishes?)
  }

  lemma RunsRest(fmt: Format, sb: Super, g: Geometry, disks: seq<Media>, ops: seq<set<Logged>>, s: nat,
                 events: seq<LogDisk.Event>)
    requires Runs(fmt, sb, g, disks, ops, s, events) && events != []
    ensures Commits(fmt, sb, g, disks[s + 1], ops[s], events[0]) && (|events| > 1 ==> events[0].Finishes?)
    ensures Runs(fmt, sb, g, disks, ops, s + 1, events[1..])
    ensures Landed(events) == if |events| > 1 || LogDisk.TakesEffect(events[0]) then 1 + Landed(events[1..]) else 0
  {
    var rest, s1 := events[1..], s + 1;
    assert CommitsAt(fmt, sb, g, disks, ops, s, events, 0);
    forall j | 0 <= j < |rest|
      ensures CommitsAt(fmt, sb, g, disks, ops, s1, rest, j)
    {
      assert CommitsAt(fmt, sb, g, disks, ops, s, events, j + 1);
    }
  }

  /** How many of the events have taken effect. */
  function Landed(events: seq<LogDisk.Event>): nat {
    if events != [] && !LogDisk.TakesEffect(events[|events| - 1]) then |events| - 1 else |events|
  }

  lemma AllPossible(fmt: Format, sb: Super, g: Geometry, disks: seq<Media>, ops: seq<set<Logged>>, s: nat,
                    disk: LogDisk.Disk, events: seq<LogDisk.Event>)
    requires Runs(fmt, sb, g, disks, ops, s, events) && g.size <= |disk|
    requires forall k :: 0 <= k < |ops| ==> LogsAt(disks, ops, k)
    requires forall k :: 0 <= k < |disks| ==> GoodSuper(sb, g, disks[k])
    ensures forall e :: e in events ==> LogDisk.Possible(sb.log, disk, e)
  {
    forall e | e in events
      ensures LogDisk.Possible(sb.log, disk, e)
    {
      var j :| 0 <= j < |events| && events[j] == e;
      var m, op := disks[s + j + 1], ops[s + j];
      assert CommitsAt(fmt, sb, g, disks, ops, s, events, j) && LogsAt(disks, ops, s + j);
      var xs :| Lists(g, m, op, xs) && e.t == TransactionOf(fmt, sb, g, m, xs);
      GoodTransaction(fmt, sb, g, disk, m, op, xs);
    }
  }

  lemma {:induction false} SameSuper(sb: Super, g: Geometry, disks: seq<Media>, ops: seq<set<Logged>>, k: nat)
    requires |disks| == |ops| + 1 && k < |disks| && GoodSuper(sb, g, disks[0])
    requires forall k :: 0 <= k < |ops| ==> LogsAt(disks, ops, k)
    ensures GoodSuper(sb, g, disks[k])
  {
    if k > 0 {
      SameSuper(sb, g, disks, ops, k - 1);
      assert LogsAt(disks, ops, k - 1);
    }
  }

  lemma FirstRepresents(fmt: Format, sb: Super, g: Geometry, disks: seq<Media>, ops: seq<set<Logged>>, s: nat,
                        disk: LogDisk.Disk, events: seq<LogDisk.Event>)
    requires Runs(fmt, sb, g, disks, ops, s, events) && events != [] && LogsAt(disks, ops, s)
    requires LogDisk.Clean(sb.log, disk) && Represents(fmt, sb, g, disk, disks[s])
    ensures LogDisk.Possible(sb.log, disk, events[0])
    ensures Represents(fmt, sb, g, LogDisk.After(sb.log, disk, events[0]),
                       disks[if LogDisk.TakesEffect(events[0]) then s + 1 else s])
  {
    RunsRest(fmt, sb, g, disks, ops, s, events);
    EventRepresents(fmt, sb, g, disk, disks[s], disks[s + 1], ops[s], events[0]);
  }

  /** What is left of the run after its first event, when that is not the last. */
  lemma FirstFinishes(fmt: Format, sb: Super, g: Geometry, disks: seq<Media>, ops: seq<set<Logged>>, s: nat,
                      disk: LogDisk.Disk, events: seq<LogDisk.Event>) returns (next: LogDisk.Disk)
    requires Runs(fmt, sb, g, disks, ops, s, events) && |events| > 1 && LogsAt(disks, ops, s)
    requires LogDisk.Clean(sb.log, disk) && Represents(fmt, sb, g, disk, disks[s])
    requires forall e :: e in events ==> LogDisk.Possible(sb.log, disk, e)
    ensures LogDisk.Clean(sb.log, next) && Represents(fmt, sb, g, next, disks[s + 1])
    ensures forall e :: e in events[1..] ==> LogDisk.Possible(sb.log, next, e)
    ensures LogDisk.History(sb.log, disk, events) == LogDisk.History(sb.log, next, events[1..])
  {
    FirstRepresents(fmt, sb, g, disks, ops, s, disk, events);
    LogDisk.HistoryFirst(sb.log, disk, events);
    next := LogDisk.After(sb.log, disk, events[0]);
  }

  lemma LastRepresents(fmt: Format, sb: Super, g: Geometry, disks: seq<Media>, ops: seq<set<Logged>>, s: nat,
                       disk: LogDisk.Disk, events: seq<LogDisk.Event>, d: LogDisk.Disk, k: nat)
    requires Runs(fmt, sb, g, disks, ops, s, events) && |events| == 1 && LogsAt(disks, ops, s)
    requires LogDisk.Clean(sb.log, disk) && Represents(fmt, sb, g, disk, disks[s])
    requires forall e :: e in events ==> LogDisk.Possible(sb.log, disk, e)
    requires d == LogDisk.History(sb.log, disk, events) && k == s + Landed(events)
    ensures Represents(fmt, sb, g, d, disks[k])
  {
    FirstRepresents(fmt, sb, g, disks, ops, s, disk, events);
    LogDisk.HistoryFirst(sb.log, disk, events);
    assert d == LogDisk.After(sb.log, disk, events[0]) && k == if LogDisk.TakesEffect(events[0]) then s + 1 else s;
  }

  lemma {:induction false} RunRepresents(fmt: Format, sb: Super, g: Geometry, disks: seq<Media>, ops: seq<set<Logged>>,
                                         s: nat, disk: LogDisk.Disk, events: seq<LogDisk.Event>,
                                         d: LogDisk.Disk, k: nat)
    requires Runs(fmt, sb, g, disks, ops, s, events) && k == s + Landed(events)
    requires forall k :: 0 <= k < |ops| ==> LogsAt(disks, ops, k)
    requires LogDisk.Clean(sb.log, disk) && Represents(fmt, sb, g, disk, disks[s])
    requires forall e :: e in events ==> LogDisk.Possible(sb.log, disk, e)
    requires d == LogDisk.History(sb.log, disk, events)
    ensures Represents(fmt, sb, g, d, disks[k])
    decreases |events|
  {
    if |events| > 1 {
      var next := FirstFinishes(fmt, sb, g, disks, ops, s, disk, events);
      RunsRest(fmt, sb, g, disks, ops, s, events);
      RunRepresents(fmt, sb, g, disks, ops, s + 1, next, events[1..], d, k);
    } else if |events| == 1 {
      LastRepresents(fmt, sb, g, disks, ops, s, disk, events, d, k);
    }
  }

  /** filewrite and crashes: its transactions, as Filewrite leaves them, are committed one after the other, and the last
      commit may be cut after any of its block writes and be followed by any number of interrupted recoveries. The disk
      then holds, consistently, every file as before with a whole number of chunks written: those of the transactions
      that ended, and that of the last one if its header had been written. */
  lemma FilewriteCrash(fmt: Format, sb: Super, g: Geometry, f: seq<seq<Byte>>, i: nat, off: nat, src: seq<Byte>,
                       done: nat,
                       disks: seq<Media>, ops: seq<set<Logged>>, disk: LogDisk.Disk, events: seq<LogDisk.Event>)
    requires Chunks(g, f, i, off, src, done, disks, ops) && Runs(fmt, sb, g, disks, ops, 0, events)
    requires LogDisk.Clean(sb.log, disk) && Represents(fmt, sb, g, disk, disks[0])
    ensures forall e :: e in events ==> LogDisk.Possible(sb.log, disk, e)
    ensures var d, k := LogDisk.History(sb.log, disk, events), Landed(events);
            && LogDisk.Clean(sb.log, d) && Represents(fmt, sb, g, d, disks[k])
            && Stored(g, disks[k], WrittenTo(f, i, off, src[..Upto(k, done)]))
  {
    forall k | 0 <= k < |disks|
      ensures GoodSuper(sb, g, disks[k])
    {
      SameSuper(sb, g, disks, ops, k);
    }
    AllPossible(fmt, sb, g, disks, ops, 0, disk, events);
    RunRepresents(fmt, sb, g, disks, ops, 0, disk, events, LogDisk.History(sb.log, disk, events), Landed(events));
    assert StageAt(g, f, i, off, src, done, disks, Landed(events));
  }
}
