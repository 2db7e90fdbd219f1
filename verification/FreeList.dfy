/** The free chunks of umalloc.c as an address-ordered list: inserting and carving chunks, in units of a header. */
module FreeList {

  /** `size` units from `addr`, the first of them its header. */
  datatype Chunk = Chunk(addr: nat, size: nat) {
    predicate Has(u: nat) {
      addr <= u < addr + size
    }

    ghost predicate Apart(c: Chunk) {
      addr + size <= c.addr || c.addr + c.size <= addr
    }
  }

  ghost predicate HasUnit(free: seq<Chunk>, u: nat) {
    exists j :: 0 <= j < |free| && free[j].Has(u)
  }

  /** Chunks that lie between base and top, in address order, no two of them adjacent. */
  ghost predicate Coalesced(base: nat, free: seq<Chunk>, top: nat) {
    && (forall j :: 0 <= j < |free| ==> free[j].size > 0 && base < free[j].addr && free[j].addr + free[j].size <= top)
    && (forall j, k :: 0 <= j < k < |free| ==> free[j].addr + free[j].size < free[k].addr)
  }

  /** How many chunks start at or before a. */
  function Rank(free: seq<Chunk>, a: nat): (r: nat)
    ensures r <= |free|
    ensures forall j :: 0 <= j < r ==> free[j].addr <= a
    ensures r < |free| ==> a < free[r].addr
  {
    if free == [] || a < free[0].addr then 0 else 1 + Rank(free[1..], a)
  }

  ghost predicate ApartFrom(free: seq<Chunk>, c: Chunk) {
    forall j :: 0 <= j < |free| ==> free[j].Apart(c)
  }

  predicate JoinsRight(free: seq<Chunk>, k: nat, c: Chunk) {
    k < |free| && c.addr + c.size == free[k].addr
  }

  predicate JoinsLeft(free: seq<Chunk>, k: nat, c: Chunk) {
    0 < k <= |free| && free[k - 1].addr + free[k - 1].size == c.addr
  }

  /** c joined with the neighbours it touches. */
  function Joined(free: seq<Chunk>, k: nat, c: Chunk): Chunk
    requires k <= |free|
  {
    var a := if JoinsLeft(free, k, c) then free[k - 1].addr else c.addr;
    var e := if JoinsRight(free, k, c) then c.addr + c.size + free[k].size else c.addr + c.size;
    Chunk(a, if e >= a then e - a else 0)
  }

  /** Chunks lo to hi give way to c and what it touches. */
  function Lo(free: seq<Chunk>, k: nat, c: Chunk): nat {
    if JoinsLeft(free, k, c) then k - 1 else k
  }

  function Hi(free: seq<Chunk>, k: nat, c: Chunk): nat {
    if JoinsRight(free, k, c) then k + 1 else k
  }

  /** The list after c is freed in front of chunk k. */
  function Insert(free: seq<Chunk>, k: nat, c: Chunk): seq<Chunk>
    requires k <= |free|
  {
    free[..Lo(free, k, c)] + [Joined(free, k, c)] + free[Hi(free, k, c)..]
  }

  lemma HasConcat(a: seq<Chunk>, b: seq<Chunk>, u: nat)
    ensures HasUnit(a + b, u) <==> HasUnit(a, u) || HasUnit(b, u)
  {
    if HasUnit(a, u) {
      var j :| 0 <= j < |a| && a[j].Has(u);
      assert (a + b)[j].Has(u);
    }
    if HasUnit(b, u) {
      var j :| 0 <= j < |b| && b[j].Has(u);
      assert (a + b)[|a| + j].Has(u);
    }
  }

  /** Replacing chunks lo to hi by m replaces their units by those of m. */
  lemma SpliceUnit(free: seq<Chunk>, lo: nat, hi: nat, m: seq<Chunk>, u: nat)
    requires lo <= hi <= |free|
    ensures HasUnit(free[..lo] + m + free[hi..], u) <==>
            HasUnit(free[..lo], u) || HasUnit(m, u) || HasUnit(free[hi..], u)
    ensures HasUnit(free, u) <==> HasUnit(free[..lo], u) || HasUnit(free[lo..hi], u) || HasUnit(free[hi..], u)
  {
    HasConcat(free[..lo] + m, free[hi..], u);
    HasConcat(free[..lo], m, u);
    assert free == free[..lo] + free[lo..hi] + free[hi..];
    HasConcat(free[..lo] + free[lo..hi], free[hi..], u);
    HasConcat(free[..lo], free[lo..hi], u);
  }

  lemma InsertUnit(free: seq<Chunk>, k: nat, c: Chunk, u: nat)
    requires k <= |free| && c.size > 0
    ensures HasUnit(Insert(free, k, c), u) <==> HasUnit(free, u) || c.Has(u)
  {
    var lo, hi, m := Lo(free, k, c), Hi(free, k, c), Joined(free, k, c);
    SpliceUnit(free, lo, hi, [m], u);
    assert HasUnit([m], u) <==> m.Has(u) by {
      assert [m][0] == m;
    }
    JoinedUnit(free, k, c, u);
  }

  lemma JoinedUnit(free: seq<Chunk>, k: nat, c: Chunk, u: nat)
    requires k <= |free| && c.size > 0
    ensures Joined(free, k, c).Has(u) <==> HasUnit(free[Lo(free, k, c)..Hi(free, k, c)], u) || c.Has(u)
  {
    var g := free[Lo(free, k, c)..Hi(free, k, c)];
    if JoinsLeft(free, k, c) {
      assert g[0] == free[k - 1];
    }
    if JoinsRight(free, k, c) {
      assert g[|g| - 1] == free[k];
    }
    if Joined(free, k, c).Has(u) && !c.Has(u) {
      assert g[if u < c.addr then 0 else |g| - 1].Has(u);
    }
  }

  lemma SpliceCoalesced(base: nat, free: seq<Chunk>, top: nat, lo: nat, hi: nat, m: Chunk)
    requires Coalesced(base, free, top) && lo <= hi <= |free|
    requires m.size > 0 && base < m.addr && m.addr + m.size <= top
    requires lo > 0 ==> free[lo - 1].addr + free[lo - 1].size < m.addr
    requires hi < |free| ==> m.addr + m.size < free[hi].addr
    ensures Coalesced(base, free[..lo] + [m] + free[hi..], top)
  {
    var f := free[..lo] + [m] + free[hi..];
    forall i, j | 0 <= i < j < |f|
      ensures f[i].addr + f[i].size < f[j].addr
    {
      SpliceAt(free, lo, hi, m, i);
      SpliceAt(free, lo, hi, m, j);
    }
    forall j | 0 <= j < |f|
      ensures f[j].size > 0 && base < f[j].addr && f[j].addr + f[j].size <= top
    {
      SpliceAt(free, lo, hi, m, j);
    }
  }

  lemma SpliceAt(free: seq<Chunk>, lo: nat, hi: nat, m: Chunk, j: nat)
    requires lo <= hi <= |free| && j < lo + 1 + |free| - hi
    ensures (free[..lo] + [m] + free[hi..])[j] ==
            if j < lo then free[j] else if j == lo then m else free[j - lo - 1 + hi]
  {
  }

  /** Freeing a chunk that touches no free unit keeps the list coalesced. */
  lemma InsertCoalesced(base: nat, free: seq<Chunk>, top: nat, c: Chunk)
    requires Coalesced(base, free, top) && c.size > 0 && base < c.addr && c.addr + c.size <= top
    requires ApartFrom(free, c)
    ensures Coalesced(base, Insert(free, Rank(free, c.addr), c), top)
  {
    var k := Rank(free, c.addr);
    assert k > 0 ==> free[k - 1].Apart(c);
    assert k < |free| ==> free[k].Apart(c);
    SpliceCoalesced(base, free, top, Lo(free, k, c), Hi(free, k, c), Joined(free, k, c));
  }

  ghost predicate SameUnits(a: seq<Chunk>, b: seq<Chunk>) {
    forall u :: HasUnit(a, u) <==> HasUnit(b, u)
  }

  /** A set of units has one coalesced list: what is free determines the free list. */
  lemma {:induction false} Canonical(base: nat, a: seq<Chunk>, b: seq<Chunk>, top: nat)
    requires Coalesced(base, a, top) && Coalesced(base, b, top) && SameUnits(a, b)
    ensures a == b
    decreases |a|
  {
    Inhabited(base, a, b, top);
    Inhabited(base, b, a, top);
    if a != [] {
      SameHead(base, a, b, top);
      SameHead(base, b, a, top);
      SameTail(base, a, b, top);
      Canonical(base, a[1..], b[1..], top);
      assert a == [a[0]] + a[1..] && b == [b[0]] + b[1..];
    }
  }

  lemma Inhabited(base: nat, a: seq<Chunk>, b: seq<Chunk>, top: nat)
    requires Coalesced(base, a, top) && SameUnits(a, b)
    ensures a != [] ==> b != []
  {
    if a != [] {
      HeadUnit(a, a[0].addr);
    }
  }

  lemma HeadUnit(a: seq<Chunk>, u: nat)
    requires a != []
    ensures a[0].Has(u) ==> HasUnit(a, u)
  {
  }

  lemma SameTail(base: nat, a: seq<Chunk>, b: seq<Chunk>, top: nat)
    requires Coalesced(base, a, top) && Coalesced(base, b, top) && a != [] && b != []
    requires SameUnits(a, b) && a[0] == b[0]
    ensures SameUnits(a[1..], b[1..]) && Coalesced(base, a[1..], top) && Coalesced(base, b[1..], top)
  {
    forall u
      ensures HasUnit(a[1..], u) <==> HasUnit(b[1..], u)
    {
      TailUnit(base, a, top, u);
      TailUnit(base, b, top, u);
    }
  }

  lemma TailUnit(base: nat, a: seq<Chunk>, top: nat, u: nat)
    requires Coalesced(base, a, top) && a != []
    ensures HasUnit(a[1..], u) <==> HasUnit(a, u) && !a[0].Has(u)
  {
    if HasUnit(a[1..], u) {
      var j :| 0 <= j < |a[1..]| && a[1..][j].Has(u);
      assert a[j + 1].Has(u);
    }
    if HasUnit(a, u) && !a[0].Has(u) {
      var j :| 0 <= j < |a| && a[j].Has(u);
      assert a[1..][j - 1].Has(u);
    }
  }

  /** The first chunk of one list starts no later than the other's and, if they start together, is no shorter. */
  lemma SameHead(base: nat, a: seq<Chunk>, b: seq<Chunk>, top: nat)
    requires Coalesced(base, a, top) && Coalesced(base, b, top) && a != [] && b != []
    requires SameUnits(a, b)
    ensures a[0].addr <= b[0].addr
    ensures a[0].addr == b[0].addr ==> a[0].size >= b[0].size
  {
    HeadUnit(b, b[0].addr);
    assert HasUnit(a, b[0].addr);
    var u := a[0].addr + a[0].size;
    HeadUnit(b, u);
    assert !HasUnit(a, u);
  }

  // ---------- Carving ----------

  /** The list after n units are taken from the end of chunk k. */
  function Carve(free: seq<Chunk>, k: nat, n: nat): seq<Chunk>
    requires k < |free| && n <= free[k].size
  {
    if free[k].size == n then free[..k] + free[k + 1..] else free[k := Chunk(free[k].addr, free[k].size - n)]
  }

  function Taken(free: seq<Chunk>, k: nat, n: nat): Chunk
    requires k < |free| && n <= free[k].size
  {
    Chunk(free[k].addr + free[k].size - n, n)
  }

  lemma CarveKeeps(base: nat, free: seq<Chunk>, top: nat, k: nat, n: nat)
    requires Coalesced(base, free, top) && k < |free| && 0 < n <= free[k].size
    ensures Coalesced(base, Carve(free, k, n), top)
    ensures ApartFrom(Carve(free, k, n), Taken(free, k, n))
  {
    var f := Carve(free, k, n);
    forall j | 0 <= j < |f|
      ensures f[j].Apart(Taken(free, k, n))
    {
      assert f[j].addr == free[if free[k].size == n && j >= k then j + 1 else j].addr;
    }
  }

  lemma OneChunk(base: nat, free: seq<Chunk>, top: nat, k: nat, u: nat)
    requires Coalesced(base, free, top) && k < |free|
    ensures HasUnit(free[k..k + 1], u) <==> free[k].Has(u)
    ensures free[k].Has(u) ==> !HasUnit(free[..k], u) && !HasUnit(free[k + 1..], u)
  {
    assert free[k..k + 1][0] == free[k];
  }

  lemma OneOrNone(c: Chunk, u: nat)
    ensures HasUnit(if c.size == 0 then [] else [c], u) <==> c.Has(u)
  {
    if c.size != 0 {
      assert [c][0] == c;
    }
  }

  lemma ChunkUnit(c: Chunk, n: nat, u: nat)
    requires 0 < n <= c.size
    ensures c.Has(u) <==> Chunk(c.addr, c.size - n).Has(u) || Chunk(c.addr + c.size - n, n).Has(u)
    ensures !(Chunk(c.addr, c.size - n).Has(u) && Chunk(c.addr + c.size - n, n).Has(u))
  {
  }

  lemma CarveParts(free: seq<Chunk>, k: nat, n: nat, u: nat)
    requires k < |free| && 0 < n <= free[k].size
    ensures HasUnit(Carve(free, k, n), u) <==>
            HasUnit(free[..k], u) || Chunk(free[k].addr, free[k].size - n).Has(u) || HasUnit(free[k + 1..], u)
    ensures HasUnit(free, u) <==> HasUnit(free[..k], u) || HasUnit(free[k..k + 1], u) || HasUnit(free[k + 1..], u)
  {
    var rest := Chunk(free[k].addr, free[k].size - n);
    var m := if rest.size == 0 then [] else [rest];
    SpliceUnit(free, k, k + 1, m, u);
    assert Carve(free, k, n) == free[..k] + m + free[k + 1..];
    OneOrNone(rest, u);
  }

  lemma CarveUnit(base: nat, free: seq<Chunk>, top: nat, k: nat, n: nat, u: nat)
    requires Coalesced(base, free, top) && k < |free| && 0 < n <= free[k].size
    ensures HasUnit(Carve(free, k, n), u) <==> HasUnit(free, u) && !Taken(free, k, n).Has(u)
  {
    CarveParts(free, k, n, u);
    OneChunk(base, free, top, k, u);
    ChunkUnit(free[k], n, u);
  }

  /** Freeing what was just carved out restores the list, however the chunk was cut. */
  lemma InsertUndoesCarve(base: nat, free: seq<Chunk>, top: nat, k: nat, n: nat)
    requires Coalesced(base, free, top) && k < |free| && 0 < n <= free[k].size
    ensures var f, c := Carve(free, k, n), Taken(free, k, n);
            Insert(f, Rank(f, c.addr), c) == free
  {
    var f, c := Carve(free, k, n), Taken(free, k, n);
    CarveKeeps(base, free, top, k, n);
    InsertCoalesced(base, f, top, c);
    forall u: nat
      ensures HasUnit(Insert(f, Rank(f, c.addr), c), u) <==> HasUnit(free, u)
    {
      CarveUnit(base, free, top, k, n, u);
      InsertUnit(f, Rank(f, c.addr), c, u);
      if c.Has(u) {
        assert free[k].Has(u);
      }
    }
    Canonical(base, Insert(f, Rank(f, c.addr), c), free, top);
  }
}
