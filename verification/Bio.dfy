/** The buffer cache of bio.c: the LRU list, reference counts, and whether a read returns the latest contents. */
module Bio {
  import opened ProcTypes
  import opened Ring

  datatype Key = Key(dev: nat, blockno: nat)

  datatype Buf<B> = Buf(key: Key, refcnt: nat, valid: bool, dirty: bool, data: B)

  /** Which buffers `bget` recycles: the code looks only at the count; `pin` adds the test of B_DIRTY that
      `log_write` counts on. */
  predicate Recyclable<B>(b: Buf<B>, pin: bool) {
    b.refcnt == 0 && (pin ==> !b.dirty)
  }

  /** At most one buffer per block of a real device; device 0 marks a buffer never used. */
  ghost predicate Unique<B>(buf: seq<Buf<B>>) {
    forall i, j :: 0 <= i < j < |buf| && buf[i].key.dev != 0 ==> buf[i].key != buf[j].key
  }

  /** The disk knows every block the cache holds, and a clean buffer shows what is on the disk. */
  ghost predicate Coherent<B(!new)>(buf: seq<Buf<B>>, disk: map<Key, B>) {
    forall i :: 0 <= i < |buf| && buf[i].key.dev != 0 ==>
      buf[i].key in disk && (buf[i].valid && !buf[i].dirty ==> buf[i].data == disk[buf[i].key])
  }

  ghost predicate Cached<B>(buf: seq<Buf<B>>, key: Key) {
    exists i :: 0 <= i < |buf| && buf[i].key == key && buf[i].valid
  }

  /** The cache over the disk shows the latest contents of every block. */
  ghost predicate Shows<B(!new)>(buf: seq<Buf<B>>, disk: map<Key, B>, latest: map<Key, B>) {
    && latest.Keys == disk.Keys
    && (forall i :: 0 <= i < |buf| && buf[i].key.dev != 0 && buf[i].key in latest && buf[i].valid ==>
          buf[i].data == latest[buf[i].key])
    && (forall key :: key in disk && key.dev != 0 && !Cached(buf, key) ==> disk[key] == latest[key])
  }

  /** Every buffer appears once. */
  ghost predicate Permutation(ring: seq<nat>, n: nat) {
    |ring| == n && Distinct(ring) && forall i :: 0 <= i < n ==> i in ring
  }

  /** The least recently released recyclable buffer. */
  ghost predicate Victim<B>(ring: seq<nat>, buf: seq<Buf<B>>, pin: bool, v: nat)
    requires forall i :: 0 <= i < |ring| ==> ring[i] < |buf|
  {
    exists k :: 0 <= k < |ring| && ring[k] == v && Recyclable(buf[v], pin)
                && forall j :: k < j < |ring| ==> !Recyclable(buf[ring[j]], pin)
  }

  /** Recycling `v` forgets nothing: it was never used, or holds what the disk holds. */
  ghost predicate Harmless<B(!new)>(buf: seq<Buf<B>>, disk: map<Key, B>, v: nat)
    requires v < |buf|
  {
    buf[v].key.dev != 0 && buf[v].key in disk && buf[v].valid ==> buf[v].data == disk[buf[v].key]
  }

  lemma OneVictim<B>(ring: seq<nat>, buf: seq<Buf<B>>, pin: bool, v: nat, w: nat)
    requires forall i :: 0 <= i < |ring| ==> ring[i] < |buf|
    requires Victim(ring, buf, pin, v) && Victim(ring, buf, pin, w)
    ensures v == w
  {
    var k :| 0 <= k < |ring| && ring[k] == v && forall j :: k < j < |ring| ==> !Recyclable(buf[ring[j]], pin);
    var l :| 0 <= l < |ring| && ring[l] == w && forall j :: l < j < |ring| ==> !Recyclable(buf[ring[j]], pin);
    assert k == l;
  }

  function MoveToFront(ring: seq<nat>, k: nat): seq<nat>
    requires k < |ring|
  {
    [ring[k]] + Remove(ring, k)
  }

  class Cache<B(0, !new)> {
    const n: nat
    const pin: bool
    var buf: seq<Buf<B>>
    var next: seq<nat>
    var prev: seq<nat>
    var disk: map<Key, B>
    /** The list from head.next on, and the contents last logged or written for every block. */
    ghost var ring: seq<nat>
    ghost var latest: map<Key, B>

    /** Node `n` is the list head. */
    ghost predicate Valid()
      reads this
    {
      && |buf| == n && |next| == n + 1
      && Linked(next, prev, [n] + ring) && Permutation(ring, n)
      && (forall i :: 0 <= i < |ring| ==> ring[i] < n)
      && Unique(buf) && Coherent(buf, disk)
    }

    /** `binit`. */
    constructor (count: nat, pinned: bool, image: map<Key, B>, blank: B)
      ensures Valid() && n == count && pin == pinned && disk == latest == image
      ensures Shows(buf, disk, latest)
      ensures forall i :: 0 <= i < n ==> buf[i] == Buf(Key(0, 0), 0, false, false, blank)
      ensures ring == seq(n, i => n - 1 - i)
    {
      n, pin, disk, latest := count, pinned, image, image;
      buf := seq(count, _ => Buf(Key(0, 0), 0, false, false, blank));
      new;
      next, prev, ring := seq(n + 1, _ => n), seq(n + 1, _ => n), [];
      assert [n] + ring == [n];
      for b := 0 to n
        invariant |prev| == |next| == n + 1 && Linked(next, prev, [n] + ring)
        invariant ring == seq(b, i requires 0 <= i < b => b - 1 - i)
        invariant buf == seq(n, _ => Buf(Key(0, 0), 0, false, false, blank)) && disk == latest == image
      {
        var first := next[n];
        LinkSecond(next, prev, [n] + ring, b);
        next, prev := next[b := first][n := b], prev[b := n][first := b];
        ring := [b] + ring;
        assert [n, b] + ([n] + ring[1..])[1..] == [n] + ring;
      }
      CountdownPermutation(ring, n);
    }

    /** `bget`, up to its sleep lock: the buffer cached for `key`, else the least recently released buffer that nobody
        holds, else a panic. A buffer somebody holds keeps its block and its contents. */
    method Bget(key: Key) returns (b: Option<nat>, hit: bool)
      requires Valid() && key.dev != 0 && key in disk
      modifies this`buf
      ensures Valid()
      ensures hit <==> exists i :: 0 <= i < n && old(buf)[i].key == key
      ensures hit ==>
                && b.Some? && b.value < n && old(buf)[b.value].key == key
                && buf == old(buf)[b.value := old(buf)[b.value].(refcnt := old(buf)[b.value].refcnt + 1)]
      ensures !hit && b.Some? ==>
                && b.value < n && Victim(ring, old(buf), pin, b.value)
                && buf == old(buf)[b.value := Buf(key, 1, false, false, old(buf)[b.value].data)]
      ensures !hit && b.Some? ==> old(buf)[b.value].refcnt == 0 && (pin ==> !old(buf)[b.value].dirty)
      ensures !hit && b.Some? ==>
                exists k :: 0 <= k < n && ring[k] == b.value
                            && forall j :: k < j < n ==>
                                 old(buf)[ring[j]].refcnt > 0 || (pin && old(buf)[ring[j]].dirty)
      ensures b.None? <==> forall i :: 0 <= i < n ==>
                             old(buf)[i].key != key && (old(buf)[i].refcnt > 0 || (pin && old(buf)[i].dirty))
      ensures b.None? ==> buf == old(buf)
      ensures forall i :: 0 <= i < n && old(buf)[i].refcnt > 0 ==>
                && buf[i].key == old(buf)[i].key && buf[i].data == old(buf)[i].data
                && buf[i].refcnt == old(buf)[i].refcnt + (if b == Some(i) then 1 else 0)
    {
      var i := Find(key);
      if i != n {
        buf := buf[i := buf[i].(refcnt := buf[i].refcnt + 1)];
        return Some(i), true;
      }
      i := FindRecyclable();
      if i != n {
        buf := buf[i := Buf(key, 1, false, false, buf[i].data)];
        return Some(i), false;
      }
      b, hit := None, false;
    }

    /** The first loop of `bget`, from the most recently released buffer on; `n` when the block is not cached. */
    method Find(key: Key) returns (i: nat)
      requires Valid()
      ensures i <= n
      ensures i < n ==> buf[i].key == key
      ensures i == n ==> forall j :: 0 <= j < n ==> buf[j].key != key
    {
      i := next[n];
      assert NodeAt(next, prev, [n] + ring, 0);
      ghost var k := 0;
      while i != n
        invariant 0 <= k <= n && i == if k < n then ring[k] else n
        invariant forall j :: 0 <= j < k ==> buf[ring[j]].key != key
        decreases n - k
      {
        if buf[i].key == key {
          return;
        }
        assert NodeAt(next, prev, [n] + ring, k + 1);
        i := next[i];
        k := k + 1;
      }
      forall j | 0 <= j < n
        ensures buf[j].key != key
      {
        assert j in ring;
      }
    }

    /** The second loop of `bget`, from the least recently released buffer back. */
    method FindRecyclable() returns (i: nat)
      requires Valid()
      ensures i <= n
      ensures i < n ==> Victim(ring, buf, pin, i)
      ensures i == n ==> forall j :: 0 <= j < n ==> !Recyclable(buf[j], pin)
    {
      i := prev[n];
      assert NodeAt(next, prev, [n] + ring, 0);
      ghost var k := n;
      while i != n
        invariant 0 <= k <= n && i == if k > 0 then ring[k - 1] else n
        invariant forall j :: k <= j < n ==> !Recyclable(buf[ring[j]], pin)
        decreases k
      {
        if buf[i].refcnt == 0 && (pin ==> !buf[i].dirty) {
          assert ring[k - 1] == i;
          return;
        }
        assert NodeAt(next, prev, [n] + ring, k);
        i := prev[i];
        k := k - 1;
      }
      forall j | 0 <= j < n
        ensures !Recyclable(buf[j], pin)
      {
        assert j in ring;
      }
    }

    /** `bread`: a valid buffer for the block. It holds the latest contents whenever the cache showed them before,
        and the cache still shows them exactly when the block was cached or the buffer due for recycling held nothing
        of its own. */
    method Bread(key: Key) returns (b: Option<nat>)
      requires Valid() && key.dev != 0 && key in disk
      modifies this`buf
      ensures Valid()
      ensures b.None? ==> buf == old(buf)
      ensures b.None? <==> forall i :: 0 <= i < n ==>
                             old(buf)[i].key != key && (old(buf)[i].refcnt > 0 || (pin && old(buf)[i].dirty))
      ensures b.Some? ==>
                && b.value < n && (forall i :: 0 <= i < n && i != b.value ==> buf[i] == old(buf)[i])
                && var was := old(buf)[b.value];
                   buf[b.value] == if was.key == key then
                                     was.(refcnt := was.refcnt + 1, valid := true,
                                          data := if was.valid then was.data else disk[key])
                                   else Buf(key, 1, true, false, disk[key])
      ensures b.Some? && old(buf)[b.value].key != key ==>
                Victim(ring, old(buf), pin, b.value) && forall i :: 0 <= i < n ==> old(buf)[i].key != key
      ensures b.Some? && old(buf)[b.value].key != key ==>
                old(buf)[b.value].refcnt == 0 && (pin ==> !old(buf)[b.value].dirty)
      ensures forall i :: 0 <= i < n && old(buf)[i].refcnt > 0 ==>
                && buf[i].key == old(buf)[i].key && (old(buf)[i].valid ==> buf[i].data == old(buf)[i].data)
                && buf[i].refcnt == old(buf)[i].refcnt + (if b == Some(i) then 1 else 0)
      ensures b.Some? && old(Shows(buf, disk, latest)) ==> buf[b.value].data == latest[key]
      ensures b.Some? && old(Shows(buf, disk, latest)) ==>
                (Shows(buf, disk, latest) <==> || (exists i :: 0 <= i < n && old(buf)[i].key == key)
                                               || (exists i: nat :: i < n && Victim(ring, old(buf), pin, i)
                                                                        && Harmless(old(buf), disk, i)))
      ensures pin ==> forall i: nat :: i < n && Victim(ring, old(buf), pin, i) ==> Harmless(old(buf), disk, i)
    {
      var hit;
      b, hit := Bget(key);
      if b.None? {
        return;
      }
      if !buf[b.value].valid {
        buf := buf[b.value := buf[b.value].(data := disk[key], valid := true)];
      }
      AfterRead(old(buf), buf, disk, latest, b.value, key);
      forall i: nat | i < n && Victim(ring, old(buf), pin, i) && !hit
        ensures i == b.value
      {
        OneVictim(ring, old(buf), pin, i, b.value);
      }
    }

    /** A holder changes a buffer and calls `log_write`: the buffer is marked dirty, the disk is untouched. */
    method LogWrite(b: nat, data: B)
      requires Valid() && b < n && buf[b].refcnt > 0 && buf[b].valid && buf[b].key.dev != 0
      modifies this`buf, this`latest
      ensures Valid() && latest == old(latest)[buf[b].key := data]
      ensures buf == old(buf)[b := old(buf)[b].(data := data, dirty := true)]
      ensures old(Shows(buf, disk, latest)) ==> Shows(buf, disk, latest)
    {
      buf := buf[b := buf[b].(data := data, dirty := true)];
      latest := latest[buf[b].key := data];
      ChangeKeeps(old(buf), buf, disk, disk, old(latest), latest, b);
    }

    /** A holder changes a buffer and calls `bwrite`. */
    method Bwrite(b: nat, data: B)
      requires Valid() && b < n && buf[b].refcnt > 0 && buf[b].valid && buf[b].key.dev != 0
      modifies this`buf, this`disk, this`latest
      ensures Valid() && latest == old(latest)[buf[b].key := data] && disk == old(disk)[buf[b].key := data]
      ensures buf == old(buf)[b := old(buf)[b].(data := data, dirty := false)]
      ensures old(Shows(buf, disk, latest)) ==> Shows(buf, disk, latest)
    {
      buf := buf[b := buf[b].(data := data, dirty := true)];
      disk := disk[buf[b].key := data];
      buf := buf[b := buf[b].(dirty := false)];
      latest := latest[buf[b].key := data];
      ChangeKeeps(old(buf), buf, old(disk), disk, old(latest), latest, b);
    }

    /** `brelse`: the last release moves the buffer to the front of the list. */
    method Brelse(b: nat)
      requires Valid() && b < n && buf[b].refcnt > 0
      modifies this`buf, this`next, this`prev, this`ring
      ensures Valid()
      ensures buf == old(buf)[b := old(buf)[b].(refcnt := old(buf)[b].refcnt - 1)]
      ensures old(buf)[b].refcnt > 1 ==> ring == old(ring)
      ensures old(buf)[b].refcnt == 1 ==> ring[0] == b
      ensures old(buf)[b].refcnt == 1 ==>
                exists k :: 0 <= k < n && old(ring)[k] == b && ring == MoveToFront(old(ring), k)
      ensures old(Shows(buf, disk, latest)) ==> Shows(buf, disk, latest)
    {
      buf := buf[b := buf[b].(refcnt := buf[b].refcnt - 1)];
      CountKeeps(old(buf), buf, disk, latest, b);
      if buf[b].refcnt == 0 {
        ToFront(b);
      }
    }

    /** The links that `brelse` rewrites to move a buffer to the front of the list. */
    method ToFront(b: nat)
      requires Valid() && b < n
      modifies this`next, this`prev, this`ring
      ensures Valid()
      ensures exists k :: 0 <= k < n && old(ring)[k] == b && ring == MoveToFront(old(ring), k)
    {
      assert b in ring;
      ghost var k :| 0 <= k < n && ring[k] == b;
      FrontLinks(next, prev, ring, n, k);
      var after, before := next[b], prev[b];
      prev := prev[after := before];
      next := next[before := after];
      var first := next[n];
      next, prev := next[b := first], prev[b := n];
      prev := prev[first := b];
      next := next[n := b];
      ring := MoveToFront(ring, k);
    }
  }

  /** The links of a list whose `k`-th buffer has moved to the front. */
  lemma FrontLinks(next: seq<nat>, prev: seq<nat>, ring: seq<nat>, n: nat, k: nat)
    requires Linked(next, prev, [n] + ring) && Permutation(ring, n) && k < n
    requires |next| == n + 1 && forall i :: 0 <= i < n ==> ring[i] < n
    ensures Permutation(MoveToFront(ring, k), n) && forall i :: 0 <= i < n ==> MoveToFront(ring, k)[i] < n
    ensures var b := ring[k];
            && next[b] <= n && prev[b] <= n
            && var next1, prev1 := next[prev[b] := next[b]], prev[next[b] := prev[b]];
               && next1[n] <= n
               && Linked(next1[b := next1[n]][n := b], prev1[b := n][next1[n] := b], [n] + MoveToFront(ring, k))
  {
    var c := [n] + ring;
    MoveSecond(next, prev, c, k + 1);
    MovedPermutation(ring, k, n);
    assert [n, ring[k]] + Remove(c, k + 1)[1..] == [n] + MoveToFront(ring, k);
  }

  lemma CountdownPermutation(ring: seq<nat>, n: nat)
    requires |ring| == n && forall i :: 0 <= i < n ==> ring[i] == n - 1 - i
    ensures Permutation(ring, n)
  {
    forall i | 0 <= i < n
      ensures i in ring
    {
      assert ring[n - 1 - i] == i;
    }
  }

  lemma MovedPermutation(ring: seq<nat>, k: nat, n: nat)
    requires Permutation(ring, n) && k < n && forall i :: 0 <= i < n ==> ring[i] < n
    ensures Permutation(MoveToFront(ring, k), n)
    ensures forall i :: 0 <= i < n ==> MoveToFront(ring, k)[i] < n
  {
    RemoveDistinct(ring, k);
    forall i | 0 <= i < n
      ensures i in MoveToFront(ring, k)
    {
      assert i in ring;
      var j :| 0 <= j < n && ring[j] == i;
      assert j != k ==> Remove(ring, k)[if j < k then j else j - 1] == i;
    }
  }

  lemma SameCached<B(!new)>(buf: seq<Buf<B>>, buf': seq<Buf<B>>, key: Key)
    requires |buf'| == |buf|
    requires forall i :: 0 <= i < |buf| ==> buf'[i].key == buf[i].key && buf'[i].valid == buf[i].valid
    ensures Cached(buf', key) <==> Cached(buf, key)
  {
  }

  /** A change of the count alone. */
  lemma CountKeeps<B(!new)>(buf: seq<Buf<B>>, buf': seq<Buf<B>>, disk: map<Key, B>, latest: map<Key, B>, b: nat)
    requires b < |buf| == |buf'| && buf' == buf[b := buf[b].(refcnt := buf'[b].refcnt)]
    ensures Shows(buf, disk, latest) ==> Shows(buf', disk, latest)
  {
    forall key
      ensures Cached(buf', key) <==> Cached(buf, key)
    {
      SameCached(buf, buf', key);
    }
  }

  /** New contents for a buffer, and perhaps for its block. */
  lemma ChangeKeeps<B(!new)>(buf: seq<Buf<B>>, buf': seq<Buf<B>>, disk: map<Key, B>, disk': map<Key, B>,
                             latest: map<Key, B>, latest': map<Key, B>, b: nat)
    requires b < |buf| == |buf'| && Unique(buf) && Coherent(buf, disk) && buf[b].valid && buf[b].key.dev != 0
    requires buf' == buf[b := buf[b].(data := buf'[b].data, dirty := buf'[b].dirty)]
    requires latest' == latest[buf[b].key := buf'[b].data]
    requires disk' == disk || disk' == disk[buf[b].key := buf'[b].data]
    ensures Shows(buf, disk, latest) ==> Shows(buf', disk', latest')
  {
    forall key
      ensures Cached(buf', key) <==> Cached(buf, key)
    {
      SameCached(buf, buf', key);
    }
    assert Cached(buf, buf[b].key);
    if Shows(buf, disk, latest) {
      forall i | 0 <= i < |buf'| && buf'[i].key.dev != 0 && buf'[i].key in latest' && buf'[i].valid
        ensures buf'[i].data == latest'[buf'[i].key]
      {
        assert i == b || buf[i].key != buf[b].key;
      }
    }
  }

  /** What `bread` does to what the cache shows. */
  lemma ReadKeeps<B(!new)>(buf: seq<Buf<B>>, buf': seq<Buf<B>>, disk: map<Key, B>, latest: map<Key, B>, b: nat,
                           key: Key)
    requires b < |buf| == |buf'| && Unique(buf) && Coherent(buf, disk) && Shows(buf, disk, latest)
    requires key.dev != 0 && key in disk
    requires forall i :: 0 <= i < |buf| && i != b ==> buf'[i] == buf[i]
    requires buf'[b].key == key && buf'[b].valid
    requires if buf[b].key == key && buf[b].valid then buf'[b].data == buf[b].data else buf'[b].data == disk[key]
    requires buf[b].key != key ==> forall i :: 0 <= i < |buf| ==> buf[i].key != key
    ensures buf'[b].data == latest[key]
    ensures Shows(buf', disk, latest) <==> buf[b].key == key || Harmless(buf, disk, b)
  {
    assert buf'[b].data == latest[key] by {
      if !(buf[b].key == key && buf[b].valid) {
        assert !Cached(buf, key) by {
          assert forall i :: 0 <= i < |buf| && i != b && buf[b].key == key ==> buf[i].key != key;
        }
      }
    }
    var lost := buf[b].key;
    forall k | k != lost
      ensures Cached(buf', k) <==> k == key || Cached(buf, k)
    {
      CachedAfterRead(buf, buf', b, key, k);
    }
    if buf[b].key != key && lost.dev != 0 {
      assert !Cached(buf', lost) by {
        assert forall i :: 0 <= i < |buf| && i != b ==> buf[i].key != lost;
      }
      if buf[b].valid {
        assert latest[lost] == buf[b].data;
      } else {
        assert !Cached(buf, lost) by {
          assert forall i :: 0 <= i < |buf| && i != b ==> buf[i].key != lost;
        }
      }
    }
  }

  lemma AfterRead<B(!new)>(buf: seq<Buf<B>>, buf': seq<Buf<B>>, disk: map<Key, B>, latest: map<Key, B>, b: nat,
                           key: Key)
    requires b < |buf| == |buf'| && Unique(buf) && Coherent(buf, disk)
    requires key.dev != 0 && key in disk
    requires forall i :: 0 <= i < |buf| && i != b ==> buf'[i] == buf[i]
    requires buf'[b].key == key && buf'[b].valid && (buf[b].key != key ==> !buf'[b].dirty)
    requires buf[b].key == key ==> buf'[b].dirty == buf[b].dirty
    requires if buf[b].key == key && buf[b].valid then buf'[b].data == buf[b].data else buf'[b].data == disk[key]
    requires buf[b].key != key ==> forall i :: 0 <= i < |buf| ==> buf[i].key != key
    ensures Unique(buf') && Coherent(buf', disk)
    ensures Shows(buf, disk, latest) ==>
              && buf'[b].data == latest[key]
              && (Shows(buf', disk, latest) <==> buf[b].key == key || Harmless(buf, disk, b))
  {
    if Shows(buf, disk, latest) {
      ReadKeeps(buf, buf', disk, latest, b, key);
    }
  }

  lemma CachedAfterRead<B(!new)>(buf: seq<Buf<B>>, buf': seq<Buf<B>>, b: nat, key: Key, k: Key)
    requires b < |buf| == |buf'| && k != buf[b].key
    requires forall i :: 0 <= i < |buf| && i != b ==> buf'[i] == buf[i]
    requires buf'[b].key == key && buf'[b].valid
    ensures Cached(buf', k) <==> k == key || Cached(buf, k)
  {
    if k == key {
      assert buf'[b].key == k && buf'[b].valid;
    } else if Cached(buf, k) {
      var i :| 0 <= i < |buf| && buf[i].key == k && buf[i].valid;
      assert buf'[i].key == k && buf'[i].valid;
    }
  }

  // ---------- A logged update that is lost ----------

  /** Nobody holds a buffer. */
  ghost predicate AtRest<B>(buf: seq<Buf<B>>) {
    forall i :: 0 <= i < |buf| ==> buf[i].refcnt == 0
  }

  /** The front of the list holds these blocks, the last one first. */
  ghost predicate Recent<B>(ring: seq<nat>, buf: seq<Buf<B>>, keys: seq<Key>)
    requires forall i :: 0 <= i < |ring| ==> ring[i] < |buf|
  {
    |keys| <= |ring| && forall j :: 0 <= j < |keys| ==> buf[ring[j]].key == keys[|keys| - 1 - j]
  }

  /** A block read and released moves to the front, from its place in the list or from the end. */
  ghost predicate Touched<B>(ring: seq<nat>, buf: seq<Buf<B>>, ring': seq<nat>, buf': seq<Buf<B>>, key: Key, k: nat)
    requires |buf'| == |buf| && forall i :: 0 <= i < |ring| ==> ring[i] < |buf|
  {
    && k < |ring| && ring' == MoveToFront(ring, k) && buf'[ring[k]].key == key
    && (forall i :: 0 <= i < |buf| && i != ring[k] ==> buf'[i] == buf[i])
    && (buf[ring[k]].key == key || k == |ring| - 1)
  }

  lemma TouchedRecent<B>(ring: seq<nat>, buf: seq<Buf<B>>, ring': seq<nat>, buf': seq<Buf<B>>, keys: seq<Key>,
                         key: Key, k: nat)
    requires |buf'| == |buf| == |ring| && Distinct(ring) && forall i :: 0 <= i < |ring| ==> ring[i] < |buf|
    requires Recent(ring, buf, keys) && key !in keys && |keys| < |ring| && Touched(ring, buf, ring', buf', key, k)
    ensures |ring'| == |ring| && (forall i :: 0 <= i < |ring'| ==> ring'[i] < |buf'|)
    ensures Recent(ring', buf', keys + [key])
  {
    RemoveDistinct(ring, k);
    assert k >= |keys|;
    forall j | 0 <= j <= |keys|
      ensures buf'[ring'[j]].key == (keys + [key])[|keys| - j]
    {
      if j > 0 {
        assert ring'[j] == ring[j - 1] && ring[j - 1] != ring[k];
      }
    }
  }

  method Touch<B(0, !new)>(c: Cache<B>, key: Key) returns (ghost k: nat)
    requires c.Valid() && !c.pin && c.n >= 1 && AtRest(c.buf) && key.dev != 0 && key in c.disk
    modifies c
    ensures c.Valid() && AtRest(c.buf) && c.disk == old(c.disk) && c.latest == old(c.latest)
    ensures Touched(old(c.ring), old(c.buf), c.ring, c.buf, key, k)
  {
    assert Recyclable(c.buf[0], c.pin);
    var b := c.Bread(key);
    ghost var ring := c.ring;
    k :| 0 <= k < c.n && ring[k] == b.value && (old(c.buf)[b.value].key == key || k == c.n - 1) by {
      if old(c.buf)[b.value].key == key {
        assert b.value in ring;
      } else {
        LastVictim(ring, old(c.buf), b.value);
      }
    }
    c.Brelse(b.value);
  }

  lemma LastVictim<B>(ring: seq<nat>, buf: seq<Buf<B>>, v: nat)
    requires |ring| == |buf| && forall i :: 0 <= i < |ring| ==> ring[i] < |buf|
    requires AtRest(buf) && Victim(ring, buf, false, v)
    ensures |ring| > 0 && ring[|ring| - 1] == v
  {
    var k :| 0 <= k < |ring| && ring[k] == v && forall j :: k < j < |ring| ==> !Recyclable(buf[ring[j]], false);
    if k < |ring| - 1 {
      assert Recyclable(buf[ring[|ring| - 1]], false);
    }
  }

  method LogAndRelease<B(0, !new)>(c: Cache<B>, a: Key, logged: B)
    requires c.Valid() && !c.pin && c.n >= 1 && AtRest(c.buf) && a.dev != 0 && a in c.disk
    modifies c
    ensures c.Valid() && AtRest(c.buf) && c.disk == old(c.disk) && c.latest == old(c.latest)[a := logged]
  {
    assert Recyclable(c.buf[0], c.pin);
    var b := c.Bread(a);
    c.LogWrite(b.value, logged);
    c.Brelse(b.value);
  }

  /** Blocks read and released one after the other end up at the front of the list. */
  method TouchAll<B(0, !new)>(c: Cache<B>, keys: seq<Key>)
    requires c.Valid() && !c.pin && c.n >= 1 && AtRest(c.buf)
    requires |keys| <= c.n && (forall i :: 0 <= i < |keys| ==> keys[i].dev != 0 && keys[i] in c.disk)
    requires forall i, j :: 0 <= i < j < |keys| ==> keys[i] != keys[j]
    modifies c
    ensures c.Valid() && AtRest(c.buf) && c.disk == old(c.disk) && c.latest == old(c.latest)
    ensures Recent(c.ring, c.buf, keys)
  {
    for i := 0 to |keys|
      invariant c.Valid() && AtRest(c.buf) && c.disk == old(c.disk) && c.latest == old(c.latest)
      invariant Recent(c.ring, c.buf, keys[..i])
    {
      ghost var ring, buf := c.ring, c.buf;
      ghost var k := Touch(c, keys[i]);
      TouchedRecent(ring, buf, c.ring, c.buf, keys[..i], keys[i], k);
      assert keys[..i + 1] == keys[..i] + [keys[i]];
    }
    assert keys[..|keys|] == keys;
  }

  /** A list full of other blocks. */
  lemma CrowdedOut<B>(ring: seq<nat>, buf: seq<Buf<B>>, keys: seq<Key>, a: Key)
    requires Permutation(ring, |buf|) && (forall i :: 0 <= i < |ring| ==> ring[i] < |buf|)
    requires Recent(ring, buf, keys) && |keys| == |buf| && a !in keys
    ensures forall j :: 0 <= j < |buf| ==> buf[j].key != a
  {
    forall j | 0 <= j < |buf|
      ensures buf[j].key != a
    {
      assert j in ring;
      var l :| 0 <= l < |ring| && ring[l] == j;
      assert buf[ring[l]].key == keys[|keys| - 1 - l];
    }
  }

  /** With the test as coded, in a cache of any size, from any contents with no buffer held: block `a` is read, logged
      and released, as many other blocks are read and released as there are buffers, and the next read of `a` returns
      the contents on disk instead of those logged. */
  method LoggedUpdateIsLost<B(0, !new)>(c: Cache<B>, a: Key, others: seq<Key>, logged: B) returns (b: nat)
    requires c.Valid() && !c.pin && c.n >= 1 && AtRest(c.buf) && a.dev != 0 && a in c.disk
    requires |others| == c.n && (forall i :: 0 <= i < |others| ==> others[i].dev != 0 && others[i] in c.disk)
    requires a !in others && forall i, j :: 0 <= i < j < |others| ==> others[i] != others[j]
    modifies c
    ensures c.Valid() && b < c.n && c.buf[b].key == a && c.buf[b].valid && c.buf[b].refcnt == 1
    ensures c.disk == old(c.disk) && c.latest == old(c.latest)[a := logged]
    ensures c.buf[b].data == old(c.disk)[a]
  {
    LogAndRelease(c, a, logged);
    TouchAll(c, others);
    CrowdedOut(c.ring, c.buf, others, a);
    assert Recyclable(c.buf[0], c.pin);
    var last := c.Bread(a);
    b := last.value;
  }
}
