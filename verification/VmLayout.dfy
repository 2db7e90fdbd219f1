/** Two-level page tables in physical memory and the frames they own, as values (vm.c, kalloc.c). */
module VmLayout {
  import opened Numbers

  const PAGESIZE: nat := 4096
  const ENTRIES: nat := 1024
  /** Pages below KERNBASE, the user half of an address space. */
  const USER: nat := 0x80000
  /** PTE_W | PTE_U: every directory entry allows all, and leaves the permissions to the page table. */
  const PDEFLAGS: nat := 6
  const PAGES: nat := 0x100000

  /** A frame holds 1024 words; a word of a table is an entry. */
  type Page = p: seq<nat> | |p| == ENTRIES witness seq(ENTRIES, _ => 0)

  const ZEROPAGE: Page := seq(ENTRIES, _ => 0)

  predicate Present(e: nat) {
    e % 2 == 1
  }

  function FrameOf(e: nat): nat {
    e / PAGESIZE
  }

  function FlagsOf(e: nat): nat {
    e % PAGESIZE
  }

  /** pa | perm | PTE_P for the page-aligned address of frame f. */
  function Entry(f: nat, perm: nat): nat {
    f * PAGESIZE + if perm % 2 == 0 then perm + 1 else perm
  }

  lemma EntryParts(f: nat, perm: nat)
    requires perm < PAGESIZE
    ensures Present(Entry(f, perm)) && FrameOf(Entry(f, perm)) == f
    ensures FlagsOf(Entry(f, perm)) == if perm % 2 == 0 then perm + 1 else perm
  {
    var low := if perm % 2 == 0 then perm + 1 else perm;
    DivMod(Entry(f, perm), PAGESIZE, f, low);
    AddMultiple(low, f * 2048, 2);
    assert Entry(f, perm) == low + f * 2048 * 2;
  }

  lemma OddFlags(e: nat)
    requires Present(e)
    ensures FlagsOf(e) % 2 == 1
  {
    AddMultiple(FlagsOf(e), e / PAGESIZE * 2048, 2);
    assert e == FlagsOf(e) + e / PAGESIZE * 2048 * 2;
  }

  // ---------- Address spaces ----------

  /** Who holds a frame: a page directory, page table i of directory d, page v of directory d's user half,
      or other kernel code. */
  datatype Owner = Directory | Table(d: nat, i: nat) | UserPage(d: nat, v: nat) | Kernel

  predicate IsDir(owner: map<nat, Owner>, d: nat) {
    d in owner && owner[d] == Directory
  }

  predicate HasTable(mem: seq<Page>, d: nat, i: nat) {
    d < |mem| && i < ENTRIES && Present(mem[d][i]) && FrameOf(mem[d][i]) < |mem|
  }

  /** What the hardware finds for page v: the entry, or 0 when there is no page table. */
  function Look(mem: seq<Page>, d: nat, v: nat): nat
    requires v < PAGES
  {
    if HasTable(mem, d, v / ENTRIES) then mem[FrameOf(mem[d][v / ENTRIES])][v % ENTRIES] else 0
  }

  ghost predicate TableOk(mem: seq<Page>, owner: map<nat, Owner>, d: nat, i: nat)
    requires d < |mem| && i < ENTRIES
  {
    Present(mem[d][i]) ==>
      var t := FrameOf(mem[d][i]);
      t < |mem| && t in owner && owner[t] == Table(d, i) && mem[d][i] == Entry(t, PDEFLAGS)
  }

  ghost predicate PageOk(mem: seq<Page>, owner: map<nat, Owner>, d: nat, v: nat)
    requires v < USER
  {
    var e := Look(mem, d, v);
    Present(e) ==> FrameOf(e) in owner && owner[FrameOf(e)] == UserPage(d, v)
  }

  /** The place recorded for frame f holds it. */
  ghost predicate OwnerOk(mem: seq<Page>, owner: map<nat, Owner>, f: nat)
    requires f in owner
  {
    && f < |mem|
    && match owner[f]
       case Table(d, i) => IsDir(owner, d) && HasTable(mem, d, i) && FrameOf(mem[d][i]) == f
       case UserPage(d, v) => IsDir(owner, d) && v < USER && Present(Look(mem, d, v)) && FrameOf(Look(mem, d, v)) == f
       case _ => true
  }

  /** Every page table and every user page of every directory is a frame recorded as its own, and conversely. */
  ghost predicate Owned(mem: seq<Page>, owner: map<nat, Owner>) {
    && (forall f :: f in owner ==> OwnerOk(mem, owner, f))
    && (forall d: nat, i: nat :: IsDir(owner, d) && d < |mem| && i < ENTRIES ==> TableOk(mem, owner, d, i))
    && (forall d: nat, v: nat :: IsDir(owner, d) && v < USER ==> PageOk(mem, owner, d, v))
  }

  /** What Owned means without the record: no two places of any directories hold the same frame. */
  lemma NoSharing(mem: seq<Page>, owner: map<nat, Owner>, d: nat, v: nat, d': nat, v': nat)
    requires Owned(mem, owner) && IsDir(owner, d) && IsDir(owner, d') && v < USER && v' < USER
    requires Present(Look(mem, d, v)) && Present(Look(mem, d', v'))
    ensures FrameOf(Look(mem, d, v)) == FrameOf(Look(mem, d', v')) ==> d == d' && v == v'
    ensures !IsDir(owner, FrameOf(Look(mem, d, v)))
    ensures HasTable(mem, d', v' / ENTRIES) && FrameOf(mem[d'][v' / ENTRIES]) != FrameOf(Look(mem, d, v))
  {
    assert PageOk(mem, owner, d, v) && PageOk(mem, owner, d', v');
    assert OwnerOk(mem, owner, d');
    assert TableOk(mem, owner, d', v' / ENTRIES);
  }

  /** A directory entry in use is present, writable and open to user code, so that a page's own entry decides. */
  lemma TableEntries(mem: seq<Page>, owner: map<nat, Owner>, d: nat, i: nat)
    requires Owned(mem, owner) && IsDir(owner, d) && i < 1024
    ensures d < |mem| && (mem[d][i] % 2 == 1 ==> mem[d][i] % 4096 == 7 && mem[d][i] / 4096 < |mem|)
  {
    assert OwnerOk(mem, owner, d);
    assert TableOk(mem, owner, d, i);
    if Present(mem[d][i]) {
      EntryParts(FrameOf(mem[d][i]), PDEFLAGS);
    }
  }

  // ---------- Steps that keep it ----------

  /** A frame that is in nobody's hands is taken by the kernel. */
  lemma TakeKeeps(mem: seq<Page>, owner: map<nat, Owner>, f: nat)
    requires Owned(mem, owner) && f !in owner && f < |mem|
    ensures Owned(mem, owner[f := Kernel])
  {
    var owner' := owner[f := Kernel];
    forall g | g in owner'
      ensures OwnerOk(mem, owner', g)
    {
      if g != f { assert OwnerOk(mem, owner, g); }
    }
    forall d: nat, i: nat | IsDir(owner', d) && d < |mem| && i < ENTRIES
      ensures TableOk(mem, owner', d, i)
    {
      assert TableOk(mem, owner, d, i);
    }
    forall d: nat, v: nat | IsDir(owner', d) && v < USER
      ensures PageOk(mem, owner', d, v)
    {
      assert PageOk(mem, owner, d, v);
    }
  }

  /** What the hardware finds does not depend on frames that are neither directory nor table. */
  lemma LookFill(mem: seq<Page>, owner: map<nat, Owner>, f: nat, x: Page, d: nat, v: nat)
    requires Owned(mem, owner) && IsDir(owner, d) && v < PAGES && f < |mem|
    requires f !in owner || owner[f].Kernel? || owner[f].UserPage?
    ensures Look(mem[f := x], d, v) == Look(mem, d, v)
  {
    assert OwnerOk(mem, owner, d);
    assert TableOk(mem, owner, d, v / ENTRIES);
  }

  /** Filling a frame that the kernel holds, and then letting go of it or not. */
  lemma FillKeeps(mem: seq<Page>, owner: map<nat, Owner>, f: nat, x: Page)
    requires Owned(mem, owner) && f in owner && owner[f] == Kernel
    ensures f < |mem| && Owned(mem[f := x], owner) && Owned(mem[f := x], owner - {f})
  {
    assert OwnerOk(mem, owner, f);
    var mem' := mem[f := x];
    forall d: nat, i: nat | IsDir(owner, d) && d < |mem| && i < ENTRIES
      ensures TableOk(mem', owner, d, i) && TableOk(mem', owner - {f}, d, i)
    {
      assert TableOk(mem, owner, d, i);
    }
    forall d: nat, v: nat | IsDir(owner, d) && v < USER
      ensures PageOk(mem', owner, d, v) && PageOk(mem', owner - {f}, d, v)
    {
      LookFill(mem, owner, f, x, d, v);
      assert PageOk(mem, owner, d, v);
    }
    forall g | g in owner
      ensures OwnerOk(mem', owner, g) && (g != f ==> OwnerOk(mem', owner - {f}, g))
    {
      FillOwner(mem, owner, f, x, g);
    }
  }

  lemma FillOwner(mem: seq<Page>, owner: map<nat, Owner>, f: nat, x: Page, g: nat)
    requires Owned(mem, owner) && f in owner && owner[f] == Kernel && g in owner && f < |mem|
    ensures OwnerOk(mem[f := x], owner, g) && (g != f ==> OwnerOk(mem[f := x], owner - {f}, g))
  {
    assert OwnerOk(mem, owner, g);
    if owner[g].UserPage? {
      LookFill(mem, owner, f, x, owner[g].d, owner[g].v);
    }
  }

  function Store(mem: seq<Page>, f: nat, j: nat, w: nat): (r: seq<Page>)
    requires f < |mem| && j < ENTRIES
    ensures |r| == |mem|
  {
    mem[f := mem[f][j := w]]
  }

  /** Writing one entry of one page table changes what the hardware finds for one page of one directory. */
  lemma LookStore(mem: seq<Page>, owner: map<nat, Owner>, d: nat, v: nat, e: nat, d': nat, v': nat)
    requires Owned(mem, owner) && IsDir(owner, d) && IsDir(owner, d') && v < PAGES && v' < PAGES
    requires HasTable(mem, d, v / ENTRIES)
    ensures Look(Store(mem, FrameOf(mem[d][v / ENTRIES]), v % ENTRIES, e), d', v')
            == if d' == d && v' == v then e else Look(mem, d', v')
  {
    assert OwnerOk(mem, owner, d) && OwnerOk(mem, owner, d');
    assert TableOk(mem, owner, d, v / ENTRIES) && TableOk(mem, owner, d', v' / ENTRIES);
    assert v' / ENTRIES == v / ENTRIES && v' % ENTRIES == v % ENTRIES ==> v' == v;
  }

  /** The tables of every directory stay where they are when an entry of a page table is written. */
  lemma TableStore(mem: seq<Page>, owner: map<nat, Owner>, d: nat, i: nat, j: nat, e: nat, d': nat)
    requires Owned(mem, owner) && IsDir(owner, d) && IsDir(owner, d') && HasTable(mem, d, i) && j < ENTRIES
    ensures d' < |mem| && Store(mem, FrameOf(mem[d][i]), j, e)[d'] == mem[d']
  {
    assert OwnerOk(mem, owner, d) && OwnerOk(mem, owner, d');
    assert TableOk(mem, owner, d, i);
  }

  /** Entry v of directory d becomes e and frame f changes hands between the kernel and that page. */
  ghost predicate Rewrites(mem: seq<Page>, owner: map<nat, Owner>, d: nat, v: nat, e: nat, owner': map<nat, Owner>) {
    && Owned(mem, owner) && IsDir(owner, d) && v < PAGES && HasTable(mem, d, v / ENTRIES)
    && owner'.Keys == owner.Keys
    && (forall f :: f in owner && owner'[f] != owner[f] ==>
          (owner[f] == Kernel || owner[f] == UserPage(d, v)) && (owner'[f] == Kernel || owner'[f] == UserPage(d, v)))
    && (v < USER ==>
          && (Present(e) ==> FrameOf(e) in owner' && owner'[FrameOf(e)] == UserPage(d, v))
          && (forall f :: f in owner' && owner'[f] == UserPage(d, v) ==> Present(e) && FrameOf(e) == f))
    && (v >= USER ==> owner' == owner)
  }

  lemma RewriteOwner(mem: seq<Page>, owner: map<nat, Owner>, d: nat, v: nat, e: nat, owner': map<nat, Owner>, g: nat)
    requires Rewrites(mem, owner, d, v, e, owner') && g in owner'
    ensures OwnerOk(Store(mem, FrameOf(mem[d][v / ENTRIES]), v % ENTRIES, e), owner', g)
  {
    assert OwnerOk(mem, owner, g);
    match owner'[g]
    case Table(d', i) =>
      TableStore(mem, owner, d, v / ENTRIES, v % ENTRIES, e, d');
    case UserPage(d', v') =>
      LookStore(mem, owner, d, v, e, d', v');
    case _ =>
  }

  lemma RewriteKeeps(mem: seq<Page>, owner: map<nat, Owner>, d: nat, v: nat, e: nat, owner': map<nat, Owner>)
    requires Rewrites(mem, owner, d, v, e, owner')
    ensures Owned(Store(mem, FrameOf(mem[d][v / ENTRIES]), v % ENTRIES, e), owner')
  {
    var mem' := Store(mem, FrameOf(mem[d][v / ENTRIES]), v % ENTRIES, e);
    forall g | g in owner'
      ensures OwnerOk(mem', owner', g)
    {
      RewriteOwner(mem, owner, d, v, e, owner', g);
    }
    forall d': nat, i: nat | IsDir(owner', d') && d' < |mem| && i < ENTRIES
      ensures TableOk(mem', owner', d', i)
    {
      TableStore(mem, owner, d, v / ENTRIES, v % ENTRIES, e, d');
      assert TableOk(mem, owner, d', i);
    }
    forall d': nat, v': nat | IsDir(owner', d') && v' < USER
      ensures PageOk(mem', owner', d', v')
    {
      LookStore(mem, owner, d, v, e, d', v');
      assert PageOk(mem, owner, d', v');
    }
  }

  /** A zeroed frame becomes page table i of directory d, which had none. */
  lemma AddTable(mem: seq<Page>, owner: map<nat, Owner>, d: nat, i: nat, t: nat)
    requires Owned(mem, owner) && IsDir(owner, d) && i < ENTRIES && d < |mem| && !Present(mem[d][i])
    requires t in owner && owner[t] == Kernel && t < |mem| && mem[t] == ZEROPAGE
    ensures Owned(Store(mem, d, i, Entry(t, PDEFLAGS)), owner[t := Table(d, i)])
    ensures forall d': nat, v: nat :: IsDir(owner, d') && v < PAGES ==>
              Look(Store(mem, d, i, Entry(t, PDEFLAGS)), d', v) == Look(mem, d', v)
  {
    var mem', owner' := Store(mem, d, i, Entry(t, PDEFLAGS)), owner[t := Table(d, i)];
    EntryParts(t, PDEFLAGS);
    forall d': nat, v: nat | IsDir(owner, d') && v < PAGES
      ensures Look(mem', d', v) == Look(mem, d', v)
    {
      AddTableLook(mem, owner, d, i, t, d', v);
    }
    forall g | g in owner'
      ensures OwnerOk(mem', owner', g)
    {
      assert OwnerOk(mem, owner, g);
    }
    forall d': nat, j: nat | IsDir(owner', d') && d' < |mem| && j < ENTRIES
      ensures TableOk(mem', owner', d', j)
    {
      assert TableOk(mem, owner, d', j);
    }
    forall d': nat, v: nat | IsDir(owner', d') && v < USER
      ensures PageOk(mem', owner', d', v)
    {
      assert PageOk(mem, owner, d', v);
    }
  }

  lemma AddTableLook(mem: seq<Page>, owner: map<nat, Owner>, d: nat, i: nat, t: nat, d': nat, v: nat)
    requires Owned(mem, owner) && IsDir(owner, d) && i < ENTRIES && d < |mem| && !Present(mem[d][i])
    requires t in owner && owner[t] == Kernel && t < |mem| && mem[t] == ZEROPAGE
    requires IsDir(owner, d') && v < PAGES
    ensures Look(Store(mem, d, i, Entry(t, PDEFLAGS)), d', v) == Look(mem, d', v)
  {
    EntryParts(t, PDEFLAGS);
    assert OwnerOk(mem, owner, d');
    assert TableOk(mem, owner, d', v / ENTRIES);
  }

  /** A zeroed frame becomes a directory that maps nothing. */
  lemma AddDir(mem: seq<Page>, owner: map<nat, Owner>, d: nat)
    requires Owned(mem, owner) && d in owner && owner[d] == Kernel && d < |mem| && mem[d] == ZEROPAGE
    ensures Owned(mem, owner[d := Directory])
    ensures forall v: nat :: v < PAGES ==> Look(mem, d, v) == 0
  {
    var owner' := owner[d := Directory];
    forall g | g in owner'
      ensures OwnerOk(mem, owner', g)
    {
      assert OwnerOk(mem, owner, g);
    }
    forall d': nat, j: nat | IsDir(owner', d') && d' < |mem| && j < ENTRIES
      ensures TableOk(mem, owner', d', j)
    {
      if d' != d { assert TableOk(mem, owner, d', j); }
    }
    forall d': nat, v: nat | IsDir(owner', d') && v < USER
      ensures PageOk(mem, owner', d', v)
    {
      if d' != d { assert PageOk(mem, owner, d', v); }
    }
  }
}
