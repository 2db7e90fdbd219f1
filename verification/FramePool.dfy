/** The free list of kalloc.c, threaded through the free frames themselves. */
module FramePool {
  import opened VmLayout

  const KERNBASE: nat := 0x8000_0000

  /** The kernel address of frame f, or the null pointer. */
  function PtrTo(f: nat): nat {
    if f == 0 then 0 else KERNBASE + f * PAGESIZE
  }

  function FrameAt(p: nat): (f: nat)
  {
    if p < KERNBASE then 0 else (p - KERNBASE) / PAGESIZE
  }

  lemma PtrRoundTrip(f: nat)
    ensures FrameAt(PtrTo(f)) == f
  {
  }

  /** A frame as kfree leaves it: filled with ones, its first word the old head of the list. */
  function Junk(next: nat): Page {
    seq(ENTRIES, i => if i == 0 then next else 0x0101_0101)
  }

  function First(free: seq<nat>): nat {
    if free == [] then 0 else free[0]
  }

  ghost predicate LinkOk(mem: seq<Page>, free: seq<nat>, k: nat)
    requires k < |free|
  {
    free[k] < |mem| && mem[free[k]][0] == PtrTo(First(free[k + 1..]))
  }

  /** The frames lo to the end of memory are free, each once on the list, or in somebody's hands. */
  ghost predicate Pool(lo: nat, mem: seq<Page>, head: nat, free: seq<nat>, held: set<nat>) {
    && 0 < lo <= |mem| && head == PtrTo(First(free))
    && (forall k :: 0 <= k < |free| ==> lo <= free[k] && LinkOk(mem, free, k))
    && (forall j, k :: 0 <= j < k < |free| ==> free[j] != free[k])
    && (forall f :: f in held ==> lo <= f < |mem|)
    && (forall f :: lo <= f < |mem| ==> (f in free <==> f !in held))
  }

  lemma PoolTake(lo: nat, mem: seq<Page>, head: nat, free: seq<nat>, held: set<nat>)
    requires Pool(lo, mem, head, free, held) && free != []
    ensures Pool(lo, mem, mem[free[0]][0], free[1..], held + {free[0]})
  {
    var rest := free[1..];
    assert LinkOk(mem, free, 0);
    forall k | 0 <= k < |rest|
      ensures lo <= rest[k] && LinkOk(mem, rest, k)
    {
      assert LinkOk(mem, free, k + 1);
      assert rest[k + 1..] == free[k + 2..];
    }
    forall f | lo <= f < |mem|
      ensures f in rest <==> f !in held + {free[0]}
    {
      assert f in free <==> f == free[0] || f in rest;
    }
  }

  lemma PoolPut(lo: nat, mem: seq<Page>, head: nat, free: seq<nat>, held: set<nat>, f: nat)
    requires Pool(lo, mem, head, free, held) && f in held
    ensures f < |mem| && Pool(lo, mem[f := Junk(head)], PtrTo(f), [f] + free, held - {f})
  {
    var mem', free' := mem[f := Junk(head)], [f] + free;
    forall k | 0 <= k < |free'|
      ensures lo <= free'[k] && LinkOk(mem', free', k)
    {
      assert free'[k + 1..] == free[k..];
      if k > 0 { assert LinkOk(mem, free, k - 1); }
    }
  }

  /** What is written to frames in somebody's hands does not touch the list. */
  lemma PoolFill(lo: nat, mem: seq<Page>, head: nat, free: seq<nat>, held: set<nat>, f: nat, x: Page)
    requires Pool(lo, mem, head, free, held) && f in held
    ensures f < |mem| && Pool(lo, mem[f := x], head, free, held)
  {
    var mem' := mem[f := x];
    forall k | 0 <= k < |free|
      ensures LinkOk(mem', free, k)
    {
      assert LinkOk(mem, free, k);
    }
  }
}
