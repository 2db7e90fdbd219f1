/** The user-level allocator of umalloc.c: a circular, address-ordered free list threaded through the memory it
    manages.  Addresses count headers of eight bytes; memory is everything below the break. */
module Umalloc {
  import opened FreeList
  import opened Params
  import ProcTypes

  type Option<+T> = ProcTypes.Option<T>

  const UNIT: nat := 8

  /** Any eight bytes, read as a header. */
  datatype Header = Header(ptr: nat, size: nat)

  // ---------- The list in memory ----------

  /** The nodes of the circle: base, then the free chunks. */
  function Node(base: nat, free: seq<Chunk>, k: nat): nat
    requires k <= |free|
  {
    if k == 0 then base else free[k - 1].addr
  }

  function SizeAt(free: seq<Chunk>, k: nat): nat
    requires k <= |free|
  {
    if k == 0 then 0 else free[k - 1].size
  }

  function Next(n: nat, k: nat): nat
    requires k <= n
  {
    if k < n then k + 1 else 0
  }

  ghost predicate LinkAt(mem: seq<Header>, base: nat, free: seq<Chunk>, k: nat)
    requires k <= |free|
  {
    && Node(base, free, k) < |mem|
    && mem[Node(base, free, k)] == Header(Node(base, free, Next(|free|, k)), SizeAt(free, k))
  }

  ghost predicate Linked(mem: seq<Header>, base: nat, free: seq<Chunk>) {
    && 0 < base < |mem| && Coalesced(base, free, |mem|)
    && forall k :: 0 <= k <= |free| ==> LinkAt(mem, base, free, k)
  }

  /** The two writes of free's first if: bp takes over its right neighbour, or points to it. */
  function LinkRight(mem: seq<Header>, bp: nat, p: nat): (r: seq<Header>)
    requires bp < |mem| && p < |mem| && mem[p].ptr < |mem|
    ensures |r| == |mem|
  {
    var q := mem[p].ptr;
    if bp + mem[bp].size == q then mem[bp := Header(mem[q].ptr, mem[bp].size + mem[q].size)]
    else mem[bp := Header(q, mem[bp].size)]
  }

  /** The two writes of free's second if: p takes over bp, or points to it. */
  function LinkLeft(mem: seq<Header>, bp: nat, p: nat): (r: seq<Header>)
    requires bp < |mem| && p < |mem|
    ensures |r| == |mem|
  {
    if p + mem[p].size == bp then mem[p := Header(mem[bp].ptr, mem[p].size + mem[bp].size)]
    else mem[p := Header(bp, mem[p].size)]
  }

  ghost predicate CanRelease(mem: seq<Header>, base: nat, free: seq<Chunk>, bp: nat) {
    && Linked(mem, base, free)
    && base < bp < |mem| && mem[bp].size > 0 && bp + mem[bp].size <= |mem|
    && ApartFrom(free, Chunk(bp, mem[bp].size))
  }

  /** Node j of the list after c went in front of chunk k: the nodes up to the insertion keep their place. */
  lemma InsertNode(base: nat, free: seq<Chunk>, k: nat, c: Chunk, j: nat)
    requires k <= |free| && j <= |Insert(free, k, c)|
    ensures var f, lo, hi, m := Insert(free, k, c), Lo(free, k, c), Hi(free, k, c), Joined(free, k, c);
            && |f| == |free| + 1 - (hi - lo)
            && (j <= lo ==> Node(base, f, j) == Node(base, free, j) && SizeAt(f, j) == SizeAt(free, j))
            && (j == lo + 1 ==> Node(base, f, j) == m.addr && SizeAt(f, j) == m.size)
            && (j > lo + 1 ==> Node(base, f, j) == Node(base, free, j - lo - 1 + hi)
                               && SizeAt(f, j) == SizeAt(free, j - lo - 1 + hi))
  {
    if j > 0 {
      SpliceAt(free, Lo(free, k, c), Hi(free, k, c), Joined(free, k, c), j - 1);
    }
  }

  /** The nodes have distinct addresses in increasing order, and bp lies between node k and the next. */
  lemma Ordered(mem: seq<Header>, base: nat, free: seq<Chunk>, i: nat, j: nat)
    requires Linked(mem, base, free) && i < j <= |free|
    ensures Node(base, free, i) + SizeAt(free, i) < Node(base, free, j)
  {
  }

  function Relinked(mem: seq<Header>, bp: nat, p: nat): (r: seq<Header>)
    requires bp < |mem| && p < |mem| && mem[p].ptr < |mem|
    ensures |r| == |mem|
  {
    LinkLeft(LinkRight(mem, bp, p), bp, p)
  }

  /** free's joins decide as the list does. */
  lemma Joins(mem: seq<Header>, base: nat, free: seq<Chunk>, bp: nat)
    requires CanRelease(mem, base, free, bp)
    ensures var k, c := Rank(free, bp), Chunk(bp, mem[bp].size);
            && var p := Node(base, free, k);
            && p < bp && LinkAt(mem, base, free, k) && mem[p].ptr < |mem| && mem[p].ptr != bp
            && (bp + mem[bp].size == mem[p].ptr <==> JoinsRight(free, k, c))
            && (p + mem[p].size == bp <==> JoinsLeft(free, k, c))
            && (JoinsRight(free, k, c) ==> LinkAt(mem, base, free, k + 1))
  {
    var k, c := Rank(free, bp), Chunk(bp, mem[bp].size);
    assert LinkAt(mem, base, free, k);
    assert k > 0 ==> free[k - 1].Apart(c);
    if JoinsRight(free, k, c) {
      assert LinkAt(mem, base, free, k + 1);
    }
  }

  /** r is mem with c inserted in front of chunk k: only the header of c and that of node k may differ. */
  ghost predicate Rewired(mem: seq<Header>, r: seq<Header>, base: nat, free: seq<Chunk>, k: nat, c: Chunk)
    requires k <= |free|
  {
    var p, m, hi := Node(base, free, k), Joined(free, k, c), Hi(free, k, c);
    && |r| == |mem| && p < |mem| && m.addr < |mem|
    && (forall u :: 0 <= u < |mem| && u != c.addr && u != p ==> r[u] == mem[u])
    && r[m.addr] == Header(Node(base, free, Next(|free|, hi)), m.size)
    && (!JoinsLeft(free, k, c) ==> r[p] == Header(c.addr, SizeAt(free, k)))
  }

  lemma RelinkedAt(mem: seq<Header>, base: nat, free: seq<Chunk>, bp: nat)
    requires CanRelease(mem, base, free, bp)
    ensures var k := Rank(free, bp);
            var p := Node(base, free, k);
            && p < bp && mem[p].ptr < |mem|
            && Rewired(mem, Relinked(mem, bp, p), base, free, k, Chunk(bp, mem[bp].size))
  {
    Joins(mem, base, free, bp);
  }

  /** Away from the insertion, node j of the new list is node i of the old one, and so is the node after it. */
  lemma FarNode(base: nat, free: seq<Chunk>, k: nat, c: Chunk, i: nat, j: nat)
    requires k <= |free| && i <= |free| && j <= |Insert(free, k, c)|
    requires j < Lo(free, k, c) || j == Lo(free, k, c) < k ==> i == j
    requires j > Lo(free, k, c) + 1 ==> i == j - Lo(free, k, c) - 1 + Hi(free, k, c)
    requires j < Lo(free, k, c) || j == Lo(free, k, c) < k || j > Lo(free, k, c) + 1
    ensures var f := Insert(free, k, c);
            && Node(base, f, j) == Node(base, free, i) && SizeAt(f, j) == SizeAt(free, i)
            && Node(base, f, Next(|f|, j)) == Node(base, free, Next(|free|, i))
  {
    var f := Insert(free, k, c);
    InsertNode(base, free, k, c, j);
    InsertNode(base, free, k, c, Next(|f|, j));
  }

  lemma RewiredFar(mem: seq<Header>, r: seq<Header>, base: nat, free: seq<Chunk>, k: nat, c: Chunk, i: nat)
    requires Linked(mem, base, free) && k <= |free| && i <= |free| && i != k
    requires Node(base, free, k) < c.addr && (k < |free| ==> c.addr < free[k].addr)
    requires Rewired(mem, r, base, free, k, c)
    ensures r[Node(base, free, i)] == Header(Node(base, free, Next(|free|, i)), SizeAt(free, i))
  {
    assert LinkAt(mem, base, free, i);
    if i < k {
      Ordered(mem, base, free, i, k);
    } else {
      Ordered(mem, base, free, k, i);
      assert i > k + 1 ==> free[k].addr < free[i - 1].addr;
    }
  }

  lemma RewiredNode(mem: seq<Header>, r: seq<Header>, base: nat, free: seq<Chunk>, k: nat, c: Chunk, j: nat)
    requires Linked(mem, base, free) && k <= |free| && j <= |Insert(free, k, c)|
    requires Node(base, free, k) < c.addr && (k < |free| ==> c.addr < free[k].addr)
    requires Rewired(mem, r, base, free, k, c)
    ensures LinkAt(r, base, Insert(free, k, c), j)
  {
    var n, lo, hi := |Insert(free, k, c)|, Lo(free, k, c), Hi(free, k, c);
    if j < lo || j == lo < k || j > lo + 1 {
      var i := if j <= lo then j else j - lo - 1 + hi;
      InsertNode(base, free, k, c, j);
      FarNode(base, free, k, c, i, j);
      RewiredFar(mem, r, base, free, k, c, i);
      assert LinkAt(mem, base, free, i);
    } else {
      InsertNode(base, free, k, c, j);
      InsertNode(base, free, k, c, Next(n, j));
    }
  }

  /** free's writes leave the list with the freed chunk inserted and joined. */
  lemma RelinkedKeeps(mem: seq<Header>, base: nat, free: seq<Chunk>, bp: nat)
    requires CanRelease(mem, base, free, bp)
    ensures var k := Rank(free, bp);
            var p := Node(base, free, k);
            && p < bp && mem[p].ptr < |mem|
            && Linked(Relinked(mem, bp, p), base, Insert(free, k, Chunk(bp, mem[bp].size)))
  {
    var k, c := Rank(free, bp), Chunk(bp, mem[bp].size);
    var f := Insert(free, k, c);
    RelinkedAt(mem, base, free, bp);
    InsertCoalesced(base, free, |mem|, c);
    var r := Relinked(mem, bp, Node(base, free, k));
    forall j | 0 <= j <= |f|
      ensures LinkAt(r, base, f, j)
    {
      RewiredNode(mem, r, base, free, k, c, j);
    }
  }

  /** The writes of malloc when the chunk after prev holds n units or more. */
  function Carved(mem: seq<Header>, prev: nat, n: nat): (r: seq<Header>)
    requires prev < |mem| && mem[prev].ptr < |mem|
    requires var p := mem[prev].ptr; n <= mem[p].size && p + mem[p].size - n < |mem|
    ensures |r| == |mem|
  {
    var p := mem[prev].ptr;
    if mem[p].size == n then mem[prev := Header(mem[p].ptr, mem[prev].size)]
    else
      var q := p + mem[p].size - n;
      mem[p := Header(mem[p].ptr, mem[p].size - n)][q := Header(mem[q].ptr, n)]
  }

  /** Taking the whole of chunk k. */
  lemma UnlinkedNode(mem: seq<Header>, base: nat, free: seq<Chunk>, k: nat, j: nat)
    requires Linked(mem, base, free) && k < |free| && j < |free|
    requires LinkAt(mem, base, free, k) && LinkAt(mem, base, free, k + 1)
    ensures var r := mem[Node(base, free, k) := Header(Node(base, free, Next(|free|, k + 1)), SizeAt(free, k))];
            LinkAt(r, base, free[..k] + free[k + 1..], j)
  {
    var f := free[..k] + free[k + 1..];
    var i := if j > k then j + 1 else j;
    assert LinkAt(mem, base, free, i);
    assert Node(base, f, j) == Node(base, free, i) && SizeAt(f, j) == SizeAt(free, i);
    if i < k {
      Ordered(mem, base, free, i, k);
    } else if i > k {
      Ordered(mem, base, free, k, i);
    }
  }

  /** Taking the end of chunk k. */
  lemma ShrunkNode(mem: seq<Header>, base: nat, free: seq<Chunk>, k: nat, n: nat, h: Header, j: nat)
    requires Linked(mem, base, free) && k < |free| && 0 < n < free[k].size && j <= |free|
    ensures var p, q := free[k].addr, free[k].addr + free[k].size - n;
            var r := mem[p := Header(Node(base, free, Next(|free|, k + 1)), free[k].size - n)][q := h];
            LinkAt(r, base, free[k := Chunk(p, free[k].size - n)], j)
  {
    assert LinkAt(mem, base, free, j);
    if j < k + 1 {
      Ordered(mem, base, free, j, k + 1);
    } else if j > k + 1 {
      Ordered(mem, base, free, k + 1, j);
    }
  }

  lemma CarvedKeeps(mem: seq<Header>, base: nat, free: seq<Chunk>, k: nat, n: nat)
    requires Linked(mem, base, free) && k < |free| && 0 < n <= free[k].size
    ensures LinkAt(mem, base, free, k) && LinkAt(mem, base, free, k + 1)
    ensures Linked(Carved(mem, Node(base, free, k), n), base, Carve(free, k, n))
  {
    assert LinkAt(mem, base, free, k) && LinkAt(mem, base, free, k + 1);
    var f, r := Carve(free, k, n), Carved(mem, Node(base, free, k), n);
    CarveKeeps(base, free, |mem|, k, n);
    forall j | 0 <= j <= |f|
      ensures LinkAt(r, base, f, j)
    {
      if free[k].size == n {
        UnlinkedNode(mem, base, free, k, j);
      } else {
        ShrunkNode(mem, base, free, k, n, Header(mem[Taken(free, k, n).addr].ptr, n), j);
      }
    }
  }

  /** malloc writes base and free units only. */
  lemma CarvedFrame(mem: seq<Header>, base: nat, free: seq<Chunk>, k: nat, n: nat, u: nat)
    requires Linked(mem, base, free) && k < |free| && 0 < n <= free[k].size
    ensures LinkAt(mem, base, free, k) && LinkAt(mem, base, free, k + 1)
    ensures var r := Carved(mem, Node(base, free, k), n);
            && r[Taken(free, k, n).addr].size == n
            && (u < |mem| && u != base && !HasUnit(free, u) ==> r[u] == mem[u])
  {
    assert LinkAt(mem, base, free, k) && LinkAt(mem, base, free, k + 1);
    NodeUnit(base, free, |mem|, k);
    assert free[k].Has(u) ==> HasUnit(free, u);
    if free[k].size == n {
      Ordered(mem, base, free, k, k + 1);
    }
  }

  /** Every node but base is a free unit. */
  lemma NodeUnit(base: nat, free: seq<Chunk>, top: nat, k: nat)
    requires Coalesced(base, free, top) && k <= |free|
    ensures Node(base, free, k) == base || HasUnit(free, Node(base, free, k))
  {
    if k > 0 {
      assert free[k - 1].Has(Node(base, free, k));
    }
  }

  // ---------- What is handed out ----------

  ghost predicate Owns(live: map<nat, nat>, a: nat, u: nat) {
    a in live && Chunk(a, live[a]).Has(u)
  }

  /** A block handed out keeps its size in its header. */
  ghost predicate BlockOk(mem: seq<Header>, base: nat, live: map<nat, nat>, a: nat)
    requires a in live
  {
    base < a && live[a] > 0 && a + live[a] <= |mem| && mem[a].size == live[a]
  }

  /** The blocks handed out hold what they held. */
  ghost predicate Preserved(live: map<nat, nat>, mem: seq<Header>, mem': seq<Header>) {
    |mem| <= |mem'| && forall a: nat, u: nat :: Owns(live, a, u) ==> u < |mem| && mem'[u] == mem[u]
  }

  lemma PreservedTwice(live: map<nat, nat>, a: seq<Header>, b: seq<Header>, c: seq<Header>)
    requires Preserved(live, a, b) && Preserved(live, b, c)
    ensures Preserved(live, a, c)
  {
    forall x: nat, u: nat | Owns(live, x, u)
      ensures u < |a| && c[u] == a[u]
    {
      assert b[u] == a[u];
    }
  }

  /** Every unit got from the kernel is free, or belongs to exactly one block. */
  ghost predicate Accounted(free: seq<Chunk>, live: map<nat, nat>, heap: iset<nat>) {
    && (forall a, u :: Owns(live, a, u) ==> !HasUnit(free, u))
    && (forall a, b, u :: Owns(live, a, u) && Owns(live, b, u) ==> a == b)
    && (forall u :: u in heap <==> HasUnit(free, u) || exists a :: Owns(live, a, u))
  }

  ghost predicate HeapOk(mem: seq<Header>, base: nat, free: seq<Chunk>, live: map<nat, nat>, heap: iset<nat>) {
    && (forall a :: a in live ==> BlockOk(mem, base, live, a))
    && Accounted(free, live, heap)
  }

  lemma ApartUnits(free: seq<Chunk>, c: Chunk)
    requires c.size > 0 && (forall j :: 0 <= j < |free| ==> free[j].size > 0)
    requires forall u :: c.Has(u) ==> !HasUnit(free, u)
    ensures ApartFrom(free, c)
  {
    forall j | 0 <= j < |free|
      ensures free[j].Apart(c)
    {
      var u := if free[j].addr < c.addr then c.addr else free[j].addr;
      assert free[j].Has(u) ==> HasUnit(free, u);
    }
  }

  lemma AccountedCarve(base: nat, free: seq<Chunk>, top: nat, live: map<nat, nat>, heap: iset<nat>, k: nat, n: nat)
    requires Coalesced(base, free, top) && k < |free| && 0 < n <= free[k].size
    requires Accounted(free, live, heap)
    ensures Taken(free, k, n).addr !in live || live[Taken(free, k, n).addr] == 0
    ensures Accounted(Carve(free, k, n), live[Taken(free, k, n).addr := n], heap)
  {
    var c := Taken(free, k, n);
    var live', f := live[c.addr := n], Carve(free, k, n);
    forall u: nat
      ensures HasUnit(f, u) <==> HasUnit(free, u) && !c.Has(u)
      ensures c.Has(u) ==> HasUnit(free, u)
    {
      CarveUnit(base, free, top, k, n, u);
      assert free[k].Has(u) ==> HasUnit(free, u);
    }
    assert c.Has(c.addr);
    assert c.addr in live && live[c.addr] > 0 ==> Owns(live, c.addr, c.addr);
    forall a, u
      ensures Owns(live', a, u) <==> if a == c.addr then c.Has(u) else Owns(live, a, u)
    {
    }
    forall u
      ensures u in heap <==> HasUnit(f, u) || exists a :: Owns(live', a, u)
    {
      if c.Has(u) {
        assert Owns(live', c.addr, u);
      } else if a :| Owns(live, a, u) {
        assert a != c.addr ==> Owns(live', a, u);
      }
    }
  }

  lemma AccountedFree(free: seq<Chunk>, live: map<nat, nat>, heap: iset<nat>, k: nat, bp: nat)
    requires Accounted(free, live, heap) && k <= |free| && bp in live && live[bp] > 0
    ensures Accounted(Insert(free, k, Chunk(bp, live[bp])), live - {bp}, heap)
  {
    var c := Chunk(bp, live[bp]);
    var live', f := live - {bp}, Insert(free, k, c);
    forall u: nat
      ensures HasUnit(f, u) <==> HasUnit(free, u) || c.Has(u)
    {
      InsertUnit(free, k, c, u);
    }
    forall a, u
      ensures Owns(live', a, u) <==> a != bp && Owns(live, a, u)
      ensures c.Has(u) <==> Owns(live, bp, u)
    {
    }
    forall u
      ensures u in heap <==> HasUnit(f, u) || exists a :: Owns(live', a, u)
    {
      if c.Has(u) {
        assert Owns(live, bp, u);
      } else if a :| Owns(live, a, u) {
        assert a != bp && Owns(live', a, u);
      }
    }
  }

  ghost function Grown(heap: iset<nat>, c: Chunk): iset<nat> {
    iset u | u in heap || c.Has(u)
  }

  lemma AccountedGrow(free: seq<Chunk>, live: map<nat, nat>, heap: iset<nat>, k: nat, c: Chunk)
    requires Accounted(free, live, heap) && k <= |free| && c.size > 0
    requires forall u :: c.Has(u) ==> u !in heap
    ensures Accounted(Insert(free, k, c), live, Grown(heap, c))
  {
    forall u: nat
      ensures HasUnit(Insert(free, k, c), u) <==> HasUnit(free, u) || c.Has(u)
    {
      InsertUnit(free, k, c, u);
    }
    forall a, u | Owns(live, a, u)
      ensures !c.Has(u)
    {
    }
  }

  // ---------- The allocator ----------

  /** malloc's size in units for nbytes, the sum in 32 bits. */
  function Units(nbytes: nat): (n: nat)
    requires nbytes < WORD
    ensures n > 0
  {
    (nbytes + (UNIT - 1)) % WORD / UNIT + 1
  }

  /** The units morecore asks of the kernel. */
  function Ask(n: nat): (m: nat)
    ensures m >= n
  {
    if n < 4096 then 4096 else n
  }

  /** How far round the circle of n + 1 nodes node x comes after node pos. */
  function Steps(n: nat, pos: nat, x: nat): nat
    requires pos <= n && x <= n
  {
    if x > pos then x - pos else x + n + 1 - pos
  }

  /** Chunk k is the first after node pos that holds n units. */
  ghost predicate FirstFit(free: seq<Chunk>, pos: nat, k: nat, n: nat)
    requires pos <= |free| && k < |free|
  {
    && free[k].size >= n
    && forall j :: 0 <= j < |free| && Steps(|free|, pos, j + 1) < Steps(|free|, pos, k + 1) ==> free[j].size < n
  }

  ghost predicate NoFit(free: seq<Chunk>, n: nat) {
    forall j :: 0 <= j < |free| ==> free[j].size < n
  }

  /** free's walk stops at a node p followed by q. */
  predicate Stops(p: nat, q: nat, bp: nat) {
    (bp > p && bp < q) || (p >= q && (bp > p || bp < q))
  }

  function Away(n: nat, k: nat, t: nat): nat
    requires k <= n && t <= n
  {
    if k <= t then t - k else t + n + 1 - k
  }

  lemma WalkStops(mem: seq<Header>, base: nat, free: seq<Chunk>, bp: nat, k: nat)
    requires Linked(mem, base, free) && base < bp && k <= |free|
    requires forall j :: 0 <= j < |free| ==> free[j].addr != bp
    ensures LinkAt(mem, base, free, k) && mem[Node(base, free, k)].ptr < |mem|
    ensures Stops(Node(base, free, k), mem[Node(base, free, k)].ptr, bp) <==> k == Rank(free, bp)
  {
    assert LinkAt(mem, base, free, k);
    var t := Rank(free, bp);
    if k < |free| {
      Ordered(mem, base, free, k, k + 1);
    }
    if k > t + 1 {
      Ordered(mem, base, free, t + 1, k);
    }
    assert k > t ==> bp < Node(base, free, k);
    assert 0 < k <= t ==> Node(base, free, k) < bp;
  }

  lemma NotANode(mem: seq<Header>, base: nat, free: seq<Chunk>, bp: nat)
    requires CanRelease(mem, base, free, bp)
    ensures forall j :: 0 <= j < |free| ==> free[j].addr != bp
  {
    forall j | 0 <= j < |free|
      ensures free[j].addr != bp
    {
      assert free[j].Apart(Chunk(bp, mem[bp].size));
    }
  }

  /** Everything free's writes achieve. */
  lemma Released(mem: seq<Header>, base: nat, free: seq<Chunk>, bp: nat)
    requires CanRelease(mem, base, free, bp)
    ensures var k, c := Rank(free, bp), Chunk(bp, mem[bp].size);
            var p, f := Node(base, free, k), Insert(free, k, c);
            && p < bp && mem[p].ptr < |mem| && k <= |f| && p == Node(base, f, k)
            && Linked(Relinked(mem, bp, p), base, f)
            && forall u :: 0 <= u < |mem| && u != bp && u != base && !HasUnit(free, u) ==>
                 Relinked(mem, bp, p)[u] == mem[u]
  {
    var k, c := Rank(free, bp), Chunk(bp, mem[bp].size);
    RelinkedKeeps(mem, base, free, bp);
    NodeUnit(base, free, |mem|, k);
    InsertNode(base, free, k, c, k);
  }

  /** A block handed out lies apart from the free chunks. */
  lemma LiveApart(mem: seq<Header>, base: nat, free: seq<Chunk>, live: map<nat, nat>, heap: iset<nat>, a: nat)
    requires HeapOk(mem, base, free, live, heap) && a in live && Coalesced(base, free, |mem|)
    ensures ApartFrom(free, Chunk(a, live[a]))
  {
    assert BlockOk(mem, base, live, a);
    forall u | Chunk(a, live[a]).Has(u)
      ensures !HasUnit(free, u)
    {
      assert Owns(live, a, u);
    }
    ApartUnits(free, Chunk(a, live[a]));
  }

  /** The units of another block are neither free, nor base, nor bp. */
  lemma Untouched(mem: seq<Header>, base: nat, free: seq<Chunk>, live: map<nat, nat>, heap: iset<nat>, bp: nat,
                  a: nat, u: nat)
    requires HeapOk(mem, base, free, live, heap) && a in live && bp in live && a != bp && Owns(live, a, u)
    ensures u < |mem| && u != base && u != bp && !HasUnit(free, u)
  {
    assert BlockOk(mem, base, live, a) && BlockOk(mem, base, live, bp);
    assert Owns(live, bp, bp);
  }

  /** The nodes after pos and before x hold fewer than n units. */
  ghost predicate TooSmall(free: seq<Chunk>, pos: nat, x: nat, n: nat)
    requires pos <= |free| && x <= |free|
  {
    forall j :: 0 <= j <= |free| && Steps(|free|, pos, j) < Steps(|free|, pos, x) ==> SizeAt(free, j) < n
  }

  lemma LapStep(mem: seq<Header>, base: nat, free: seq<Chunk>, pos: nat, x: nat, n: nat)
    requires Linked(mem, base, free) && pos <= |free| && x <= |free|
    requires TooSmall(free, pos, x, n) && SizeAt(free, x) < n
    ensures Node(base, free, x) == Node(base, free, pos) ==> x == pos && NoFit(free, n)
    ensures x != pos ==> TooSmall(free, pos, Next(|free|, x), n)
                         && Steps(|free|, pos, Next(|free|, x)) == Steps(|free|, pos, x) + 1
  {
    if x < pos {
      Ordered(mem, base, free, x, pos);
    } else if pos < x {
      Ordered(mem, base, free, pos, x);
    } else {
      forall j | 0 <= j < |free|
        ensures free[j].size < n
      {
        assert SizeAt(free, j + 1) < n;
      }
    }
  }

  /** Taking units from chunk k leaves every block's units alone and makes a block of those taken. */
  lemma CarvedLive(mem: seq<Header>, base: nat, free: seq<Chunk>, live: map<nat, nat>, heap: iset<nat>, k: nat, n: nat)
    requires Linked(mem, base, free) && HeapOk(mem, base, free, live, heap) && k < |free| && 0 < n <= free[k].size
    ensures LinkAt(mem, base, free, k) && LinkAt(mem, base, free, k + 1)
    ensures var r, c := Carved(mem, Node(base, free, k), n), Taken(free, k, n);
            && Preserved(live, mem, r)
            && c.addr !in live
            && Linked(r, base, Carve(free, k, n)) && HeapOk(r, base, Carve(free, k, n), live[c.addr := n], heap)
            && k <= |Carve(free, k, n)| && Node(base, free, k) == Node(base, Carve(free, k, n), k)
  {
    CarvedKeeps(mem, base, free, k, n);
    var r, c := Carved(mem, Node(base, free, k), n), Taken(free, k, n);
    CarvedFrame(mem, base, free, k, n, c.addr);
    AccountedCarve(base, free, |mem|, live, heap, k, n);
    forall a: nat, u: nat | Owns(live, a, u)
      ensures u < |mem| && r[u] == mem[u]
    {
      assert BlockOk(mem, base, live, a);
      CarvedFrame(mem, base, free, k, n, u);
    }
    forall a | a in live
      ensures BlockOk(mem, base, live, a) && Owns(live, a, a)
    {
      assert BlockOk(mem, base, live, a);
    }
  }

  /** Memory after sbrk added `grant` and morecore set the size of the new chunk. */
  function Granted(mem: seq<Header>, grant: seq<Header>): (r: seq<Header>)
    requires |grant| > 0
    ensures |r| == |mem| + |grant| && r[|mem|].size == |grant|
    ensures forall u :: 0 <= u < |mem| ==> r[u] == mem[u]
  {
    (mem + grant)[|mem| := Header(grant[0].ptr, |grant|)]
  }

  /** Memory that grows above the break leaves the list as it is. */
  lemma Extended(mem: seq<Header>, grant: seq<Header>, base: nat, free: seq<Chunk>)
    requires Linked(mem, base, free) && |grant| > 0
    ensures CanRelease(Granted(mem, grant), base, free, |mem|)
  {
    forall k | 0 <= k <= |free|
      ensures LinkAt(Granted(mem, grant), base, free, k)
    {
      assert LinkAt(mem, base, free, k);
    }
  }

  /** What the kernel granted before lies below the break. */
  lemma HeapBelow(mem: seq<Header>, base: nat, free: seq<Chunk>, live: map<nat, nat>, heap: iset<nat>, u: nat)
    requires Coalesced(base, free, |mem|) && HeapOk(mem, base, free, live, heap)
    ensures u in heap ==> u < |mem|
  {
    if a: nat :| Owns(live, a, u) {
      assert BlockOk(mem, base, live, a);
    }
  }

  /** What morecore's free leaves: new free units, no block touched. */
  lemma HeapGrow(mem: seq<Header>, grant: seq<Header>, mem': seq<Header>, base: nat, free: seq<Chunk>,
                 live: map<nat, nat>, heap: iset<nat>)
    requires Coalesced(base, free, |mem|) && HeapOk(mem, base, free, live, heap) && |grant| > 0
    requires |mem'| == |mem| + |grant|
    requires forall u :: 0 <= u < |mem'| && u != |mem| && u != base && !HasUnit(free, u) ==>
              mem'[u] == Granted(mem, grant)[u]
    ensures var c := Chunk(|mem|, |grant|);
            HeapOk(mem', base, Insert(free, Rank(free, |mem|), c), live, Grown(heap, c))
    ensures Preserved(live, mem, mem')
  {
    var c := Chunk(|mem|, |grant|);
    forall u: nat
      ensures c.Has(u) ==> u !in heap
    {
      HeapBelow(mem, base, free, live, heap, u);
    }
    AccountedGrow(free, live, heap, Rank(free, c.addr), c);
    forall a: nat, u: nat | Owns(live, a, u)
      ensures u < |mem| && mem'[u] == mem[u]
    {
      assert BlockOk(mem, base, live, a);
    }
    forall a | a in live
      ensures BlockOk(mem', base, live, a)
    {
      assert BlockOk(mem, base, live, a) && Owns(live, a, a);
    }
  }

  lemma InsertFits(free: seq<Chunk>, k: nat, c: Chunk, n: nat)
    requires k <= |free| && 0 < n <= c.size
    ensures !NoFit(Insert(free, k, c), n)
  {
    var lo := Lo(free, k, c);
    SpliceAt(free, lo, Hi(free, k, c), Joined(free, k, c), lo);
    assert Insert(free, k, c)[lo].size >= n;
  }

  /** How morecore ends: null, more free units, or a header where there is no memory for it. */
  datatype Growth = Refused | Added | PastBreak

  /** The size in bytes that morecore asks sbrk for is positive as an int. */
  predicate Positive(n: nat) {
    Ask(n) * UNIT <= MAXINT
  }

  class Heap {
    /** The static header, below everything the kernel grants; address 0 is the null pointer. */
    const base: nat
    var mem: seq<Header>
    var freep: nat
    ghost var free: seq<Chunk>
    ghost var pos: nat
    ghost var live: map<nat, nat>
    ghost var heap: iset<nat>

    ghost predicate ListOk()
      reads this
    {
      Linked(mem, base, free) && pos <= |free| && freep == Node(base, free, pos)
    }

    ghost predicate Valid()
      reads this
    {
      && 0 < base < |mem|
      && (if freep == 0 then free == [] && live == map[] && heap == iset{} else ListOk())
      && HeapOk(mem, base, free, live, heap)
    }

    constructor (base: nat, mem: seq<Header>)
      requires 0 < base < |mem|
      ensures Valid() && free == [] && live == map[] && heap == iset{} && this.base == base && this.mem == mem
    {
      this.base, this.mem, freep := base, mem, 0;
      free, pos, live, heap := [], 0, map[], iset{};
    }

    /** free's walk: the node after which bp belongs. */
    method Find(bp: nat) returns (p: nat)
      requires ListOk() && base < bp && forall j :: 0 <= j < |free| ==> free[j].addr != bp
      ensures p == Node(base, free, Rank(free, bp))
    {
      p := freep;
      ghost var k, t := pos, Rank(free, bp);
      WalkStops(mem, base, free, bp, k);
      while !(bp > p && bp < mem[p].ptr)
        invariant 0 <= k <= |free| && p == Node(base, free, k) && LinkAt(mem, base, free, k)
        invariant mem[p].ptr < |mem|
        invariant Stops(p, mem[p].ptr, bp) <==> k == t
        decreases Away(|free|, k, t)
      {
        if p >= mem[p].ptr && (bp > p || bp < mem[p].ptr) {
          break;
        }
        p := mem[p].ptr;
        k := Next(|free|, k);
        WalkStops(mem, base, free, bp, k);
      }
    }

    /** free, for the chunk at bp whose header holds its size. */
    method Release(bp: nat)
      requires ListOk() && CanRelease(mem, base, free, bp)
      modifies `mem, `freep, `free, `pos
      ensures ListOk() && |mem| == |old(mem)|
      ensures free == Insert(old(free), Rank(old(free), bp), Chunk(bp, old(mem)[bp].size)) && pos == Rank(old(free), bp)
      ensures forall u :: 0 <= u < |mem| && u != bp && u != base && !HasUnit(old(free), u) ==> mem[u] == old(mem)[u]
    {
      NotANode(mem, base, free, bp);
      var p := Find(bp);
      Released(mem, base, free, bp);
      mem := LinkRight(mem, bp, p);
      mem := LinkLeft(mem, bp, p);
      freep := p;
      free, pos := Insert(free, Rank(free, bp), Chunk(bp, old(mem)[bp].size)), Rank(free, bp);
    }

    /** free(ap): the block goes back to the list, which stays ordered and fully joined; no other block changes. */
    method Free(ap: nat)
      requires Valid() && ap > 0 && ap - 1 in live
      modifies `mem, `freep, `free, `pos, `live
      ensures Valid() && |mem| == |old(mem)|
      ensures live == old(live) - {ap - 1}
      ensures free == Insert(old(free), Rank(old(free), ap - 1), Chunk(ap - 1, old(live)[ap - 1]))
      ensures Preserved(live, old(mem), mem)
    {
      var bp := ap - 1;
      ghost var k := Rank(free, bp);
      assert BlockOk(mem, base, live, bp);
      LiveApart(mem, base, free, live, heap, bp);
      Release(bp);
      AccountedFree(old(free), live, heap, k, bp);
      live := live - {bp};
      forall a: nat, u: nat | Owns(live, a, u)
        ensures u < |mem| && mem[u] == old(mem)[u]
      {
        assert Owns(old(live), a, u);
        Untouched(old(mem), base, old(free), old(live), heap, bp, a, u);
      }
      forall a | a in live
        ensures BlockOk(mem, base, live, a)
      {
        assert BlockOk(old(mem), base, old(live), a);
        assert Owns(live, a, a);
      }
    }

    /** malloc's search, from freep round the circle: the first chunk of n units or more, or none. */
    method Lap(n: nat) returns (found: bool, prev: nat, ghost k: nat)
      requires ListOk() && n > 0
      ensures found ==> k < |free| && prev == Node(base, free, k) && FirstFit(free, pos, k, n)
      ensures !found ==> NoFit(free, n)
    {
      prev := freep;
      k := pos;
      assert LinkAt(mem, base, free, k);
      var p := mem[prev].ptr;
      assert LinkAt(mem, base, free, Next(|free|, k));
      while true
        invariant k <= |free| && prev == Node(base, free, k) && p == Node(base, free, Next(|free|, k))
        invariant LinkAt(mem, base, free, Next(|free|, k))
        invariant TooSmall(free, pos, Next(|free|, k), n)
        decreases |free| + 1 - Steps(|free|, pos, Next(|free|, k))
      {
        if mem[p].size >= n {
          return true, prev, k;
        }
        LapStep(mem, base, free, pos, Next(|free|, k), n);
        if p == freep {
          return false, prev, k;
        }
        prev, p := p, mem[p].ptr;
        k := Next(|free|, k);
        assert LinkAt(mem, base, free, Next(|free|, k));
      }
    }

    /** malloc once the chunk after prev is found to fit: take its last n units. */
    method Take(prev: nat, ghost k: nat, n: nat) returns (p: nat)
      requires Valid() && freep != 0 && n > 0
      requires k < |free| && prev == Node(base, free, k) && free[k].size >= n
      modifies `mem, `freep, `free, `pos, `live
      ensures Valid() && freep != 0 && |mem| == |old(mem)|
      ensures p == Taken(old(free), k, n).addr && p !in old(live) && live == old(live)[p := n]
      ensures free == Carve(old(free), k, n)
      ensures Preserved(old(live), old(mem), mem)
    {
      CarvedLive(mem, base, free, live, heap, k, n);
      p := mem[prev].ptr + mem[mem[prev].ptr].size - n;
      assert p == Taken(free, k, n).addr;
      mem, freep := Carved(mem, prev, n), prev;
      free, pos, live := Carve(free, k, n), k, live[p := n];
    }

    /** morecore, where `grant` is what sbrk added above the break, if the kernel agreed. The argument of sbrk is an
        int: when it comes out negative or zero and the kernel agrees, no memory is added, the break may even have
        moved down, and the header goes where the break was. Nothing is promised of the heap from there on. */
    method Morecore(n: nat, grant: Option<seq<Header>>) returns (r: Growth)
      requires Valid() && freep != 0 && n > 0
      requires grant.Some? && Positive(n) ==> |grant.value| == Ask(n)
      modifies `mem, `freep, `free, `pos, `heap
      ensures r == if grant.None? then Refused else if Positive(n) then Added else PastBreak
      ensures r.Refused? ==> Valid() && freep == old(freep) && mem == old(mem) && free == old(free) && heap == old(heap)
      ensures r.Added? ==>
                && Valid() && freep != 0 && |mem| == |old(mem)| + (if n < 4096 then 4096 else n)
                && heap == Grown(old(heap), Chunk(|old(mem)|, Ask(n)))
                && free == Insert(old(free), Rank(old(free), |old(mem)|), Chunk(|old(mem)|, Ask(n)))
                && !NoFit(free, n) && Preserved(live, old(mem), mem)
    {
      if grant.None? { return Refused; }
      if Ask(n) * UNIT > MAXINT { return PastBreak; }
      Extend(n, grant.value);
      r := Added;
    }

    /** morecore once sbrk has agreed. */
    method Extend(n: nat, grant: seq<Header>)
      requires Valid() && freep != 0 && n > 0 && |grant| == Ask(n)
      modifies `mem, `freep, `free, `pos, `heap
      ensures Valid() && freep != 0 && |mem| == |old(mem)| + Ask(n)
      ensures heap == Grown(old(heap), Chunk(|old(mem)|, Ask(n)))
      ensures free == Insert(old(free), Rank(old(free), |old(mem)|), Chunk(|old(mem)|, Ask(n)))
      ensures !NoFit(free, n) && Preserved(live, old(mem), mem)
    {
      var hp := |mem|;
      Extended(mem, grant, base, free);
      mem := Granted(mem, grant);
      Release(hp);
      HeapGrow(old(mem), grant, mem, base, old(free), live, heap);
      heap := Grown(heap, Chunk(hp, |grant|));
      InsertFits(old(free), Rank(old(free), hp), Chunk(hp, |grant|), n);
    }

    /** malloc's loop: search, ask the kernel if need be, search again, take. */
    method Allocate(n: nat, grant: Option<seq<Header>>)
        returns (r: Option<nat>, past: bool, ghost more: bool, ghost f: seq<Chunk>, ghost k: nat)
      requires Valid() && freep != 0 && n > 0
      requires grant.Some? && Positive(n) ==> |grant.value| == Ask(n)
      modifies `mem, `freep, `free, `pos, `live, `heap
      ensures past <==> more && grant.Some? && !Positive(n)
      ensures !past ==> Valid() && freep != 0 && Preserved(old(live), old(mem), mem)
      ensures more <==> NoFit(old(free), n)
      ensures !past ==> (r.None? <==> more && grant.None?)
      ensures r.None? && !past ==> free == old(free) && live == old(live) && heap == old(heap)
      ensures f == if more && r.Some? && !past then
                     Insert(old(free), Rank(old(free), |old(mem)|), Chunk(|old(mem)|, Ask(n)))
                   else old(free)
      ensures r.Some? && !past ==>
                && heap == (if more then Grown(old(heap), Chunk(|old(mem)|, Ask(n))) else old(heap))
                && k < |f| && f[k].size >= n && free == Carve(f, k, n)
                && r.value == Taken(f, k, n).addr
                && r.value !in old(live) && live == old(live)[r.value := n]
                && (!more ==> FirstFit(f, old(pos), k, n))
    {
      f := free;
      var found, prev;
      found, prev, k := Lap(n);
      more, past := !found, false;
      ghost var m := mem;
      if !found {
        var growth := Morecore(n, grant);
        if !growth.Added? { return ProcTypes.None, growth.PastBreak?, more, f, k; }
        f, m := free, mem;
        found, prev, k := Lap(n);
      }
      var p := Take(prev, k, n);
      r := ProcTypes.Some(p);
      assert Preserved(old(live), old(mem), mem);
    }

    /** malloc's first call makes the circle of the static header alone. */
    method StartList()
      requires Valid()
      modifies `mem, `freep, `pos
      ensures Valid() && freep != 0 && |mem| == |old(mem)| && Preserved(live, old(mem), mem)
      ensures old(freep) != 0 ==> mem == old(mem) && freep == old(freep) && pos == old(pos)
    {
      if freep == 0 {
        mem := mem[base := Header(base, 0)];
        freep, pos := base, 0;
        assert LinkAt(mem, base, free, 0);
      }
    }

    /** malloc once it has counted its units. */
    method MallocUnits(n: nat, grant: Option<seq<Header>>)
        returns (r: Option<nat>, past: bool, ghost more: bool, ghost f: seq<Chunk>, ghost k: nat)
      requires Valid() && n > 0
      requires grant.Some? && Positive(n) ==> |grant.value| == Ask(n)
      modifies `mem, `freep, `free, `pos, `live, `heap
      ensures past <==> more && grant.Some? && !Positive(n)
      ensures !past ==> Valid() && Preserved(old(live), old(mem), mem)
      ensures more <==> NoFit(old(free), n)
      ensures !past ==> (r.None? <==> more && grant.None?)
      ensures r.None? && !past ==> free == old(free) && live == old(live) && heap == old(heap)
      ensures var c := Chunk(|old(mem)|, Ask(n));
              && f == (if more && r.Some? && !past then Insert(old(free), Rank(old(free), c.addr), c) else old(free))
              && (r.Some? && !past ==> heap == if more then Grown(old(heap), c) else old(heap))
      ensures r.Some? && !past ==>
                && k < |f| && f[k].size >= n && free == Carve(f, k, n) && r.value == Taken(f, k, n).addr + 1
                && r.value - 1 !in old(live) && live == old(live)[r.value - 1 := n]
      ensures r.Some? && !more ==> old(pos) <= |f| && FirstFit(f, old(pos), k, n)
    {
      StartList();
      ghost var m := mem;
      var p;
      p, past, more, f, k := Allocate(n, grant);
      if !past {
        PreservedTwice(old(live), old(mem), m, mem);
      }
      r := if p.None? then ProcTypes.None else ProcTypes.Some(p.value + 1);
    }

    /** malloc: a block of Units(nbytes) units, cut from the end of the first chunk round the circle that holds them,
        or from what the kernel grants when none does; null exactly when both fail. `past` is the one way to go wrong:
        nothing fits, and a request that overflows the int argument of sbrk makes morecore put a header where it has no
        memory, after which nothing is promised. */
    method Malloc(nbytes: nat, grant: Option<seq<Header>>)
        returns (r: Option<nat>, past: bool, ghost more: bool, ghost f: seq<Chunk>, ghost k: nat)
      requires Valid() && nbytes < WORD
      requires grant.Some? && Positive(Units(nbytes)) ==> |grant.value| == Ask(Units(nbytes))
      modifies `mem, `freep, `free, `pos, `live, `heap
      ensures past <==> more && grant.Some? && 0x7fff_fff0 < nbytes <= WORD - UNIT
      ensures !past ==> Valid() && Preserved(old(live), old(mem), mem)
      ensures more <==> NoFit(old(free), Units(nbytes))
      ensures !past ==> (r.None? <==> more && grant.None?)
      ensures r.None? && !past ==> free == old(free) && live == old(live) && heap == old(heap)
      ensures var c := Chunk(|old(mem)|, Ask(Units(nbytes)));
              && f == (if more && r.Some? && !past then Insert(old(free), Rank(old(free), c.addr), c) else old(free))
              && (r.Some? && !past ==> heap == if more then Grown(old(heap), c) else old(heap))
      ensures r.Some? && !past ==>
                && k < |f| && f[k].size >= Units(nbytes) && free == Carve(f, k, Units(nbytes))
                && r.value == Taken(f, k, Units(nbytes)).addr + 1
                && r.value == f[k].addr + f[k].size - Units(nbytes) + 1
                && r.value - 1 !in old(live) && live == old(live)[r.value - 1 := Units(nbytes)]
      ensures r.Some? && !more ==> old(pos) <= |f| && FirstFit(f, old(pos), k, Units(nbytes))
    {
      SbrkArgument(nbytes);
      r, past, more, f, k := MallocUnits(Units(nbytes), grant);
    }
  }

  /** The block holds the bytes asked for, behind its header of eight bytes, exactly when the sum in 32 bits does not
      wrap, and then with one unit less it would not. */
  lemma Capacity(nbytes: nat)
    requires nbytes < WORD
    ensures (Units(nbytes) - 1) * 8 >= nbytes <==> nbytes <= 0xffff_fff8
    ensures nbytes <= 0xffff_fff8 ==> (Units(nbytes) - 2) * 8 < nbytes
  {
    if nbytes > WORD - UNIT {
      assert (nbytes + (UNIT - 1)) % WORD == nbytes + (UNIT - 1) - WORD;
    }
  }

  /** morecore's argument to sbrk is positive as an int exactly for these requests. */
  lemma SbrkArgument(nbytes: nat)
    requires nbytes < WORD
    ensures Positive(Units(nbytes)) <==> nbytes <= 0x7fff_fff0 || nbytes > WORD - UNIT
  {
    if nbytes > WORD - UNIT {
      assert (nbytes + (UNIT - 1)) % WORD == nbytes + (UNIT - 1) - WORD;
    }
  }
}
