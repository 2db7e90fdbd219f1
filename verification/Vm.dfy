/** Growing, shrinking, copying and freeing address spaces: vm.c over the frames of kalloc.c.
    Frame and page numbers stand for page-aligned addresses; frame 0 for the null pointer. */
module Vm {
  import opened VmLayout
  import opened FramePool
  import opened Params

  const PTE_W: nat := 2
  const PTE_U: nat := 4

  /** How a mapping ends: done, -1 for want of memory, or the panic on a page already mapped. */
  datatype Outcome = Done | NoMemory | Remap

  /** The hardware finds the same for every page of the old directories. */
  ghost predicate SameLook(mem: seq<Page>, owner: map<nat, Owner>, mem': seq<Page>) {
    forall d: nat, v: nat :: IsDir(owner, d) && v < PAGES ==> Look(mem', d, v) == Look(mem, d, v)
  }

  predicate IsData(owner: map<nat, Owner>, f: nat) {
    f in owner && (owner[f].Kernel? || owner[f].UserPage?)
  }

  /** User pages and the kernel's own frames hold what they held. */
  ghost predicate SameData(mem: seq<Page>, owner: map<nat, Owner>, mem': seq<Page>) {
    |mem| == |mem'| && forall f: nat :: IsData(owner, f) && f < |mem| ==> mem'[f] == mem[f]
  }

  /** Directory d may have gained page tables; nothing else changed hands. */
  ghost predicate OnlyTables(owner: map<nat, Owner>, owner': map<nat, Owner>, d: nat) {
    && (forall f :: f in owner ==> f in owner' && owner'[f] == owner[f])
    && (forall f :: f in owner' && f !in owner ==> owner'[f].Table? && owner'[f].d == d)
  }

  /** The hardware finds e for page v of directory d, and what it found before for everything else. */
  ghost predicate SetLook(mem: seq<Page>, owner: map<nat, Owner>, mem': seq<Page>, d: nat, v: nat, e: nat) {
    forall d': nat, v': nat :: IsDir(owner, d') && v' < PAGES ==>
      Look(mem', d', v') == if d' == d && v' == v then e else Look(mem, d', v')
  }

  lemma SetLookStore(mem: seq<Page>, owner: map<nat, Owner>, d: nat, v: nat, e: nat)
    requires Owned(mem, owner) && IsDir(owner, d) && v < PAGES && HasTable(mem, d, v / ENTRIES)
    ensures SetLook(mem, owner, Store(mem, FrameOf(mem[d][v / ENTRIES]), v % ENTRIES, e), d, v, e)
  {
    forall d': nat, v': nat | IsDir(owner, d') && v' < PAGES
      ensures Look(Store(mem, FrameOf(mem[d][v / ENTRIES]), v % ENTRIES, e), d', v')
              == if d' == d && v' == v then e else Look(mem, d', v')
    {
      LookStore(mem, owner, d, v, e, d', v');
    }
  }

  /** No frame is recorded for a page that is not mapped. */
  lemma Unclaimed(mem: seq<Page>, owner: map<nat, Owner>, d: nat, v: nat)
    requires Owned(mem, owner) && v < PAGES && !Present(Look(mem, d, v))
    ensures forall f :: f in owner ==> owner[f] != UserPage(d, v)
  {
    forall f | f in owner
      ensures owner[f] != UserPage(d, v)
    {
      assert OwnerOk(mem, owner, f);
    }
  }

  /** Mapping a frame of the kernel's at a page that is not mapped. */
  lemma Claims(mem: seq<Page>, owner: map<nat, Owner>, d: nat, v: nat, f: nat, perm: nat)
    requires Owned(mem, owner) && IsDir(owner, d) && v < PAGES && HasTable(mem, d, v / ENTRIES) && perm < PAGESIZE
    requires !Present(Look(mem, d, v)) && (v < USER ==> f in owner && owner[f] == Kernel)
    ensures Rewrites(mem, owner, d, v, Entry(f, perm), if v < USER then owner[f := UserPage(d, v)] else owner)
  {
    EntryParts(f, perm);
    Unclaimed(mem, owner, d, v);
  }

  lemma SetLookAfter(m0: seq<Page>, o0: map<nat, Owner>, m1: seq<Page>, o1: map<nat, Owner>, m2: seq<Page>, d: nat,
                     v: nat, e: nat)
    requires SameLook(m0, o0, m1) && SetLook(m1, o1, m2, d, v, e)
    requires forall d' :: IsDir(o0, d') ==> IsDir(o1, d')
    ensures SetLook(m0, o0, m2, d, v, e)
  {
  }

  /** Clearing the entry of a mapped page and giving its frame up, in either order. */
  lemma Unmaps(mem: seq<Page>, owner: map<nat, Owner>, d: nat, v: nat, x: Page)
    requires Owned(mem, owner) && IsDir(owner, d) && v < USER && HasTable(mem, d, v / ENTRIES)
    requires Present(Look(mem, d, v))
    ensures var t, f := FrameOf(mem[d][v / ENTRIES]), FrameOf(Look(mem, d, v));
            && f in owner && f < |mem| && t in owner && t != f
            && var m := Store(mem[f := x], t, v % ENTRIES, 0);
            && Owned(m, owner - {f}) && SetLook(mem, owner, m, d, v, 0) && SameData(mem, owner - {f}, m)
  {
    var t, f := FrameOf(mem[d][v / ENTRIES]), FrameOf(Look(mem, d, v));
    assert TableOk(mem, owner, d, v / ENTRIES);
    assert PageOk(mem, owner, d, v);
    assert OwnerOk(mem, owner, f);
    var m1, o1 := Store(mem, t, v % ENTRIES, 0), owner[f := Kernel];
    Releases(mem, owner, d, v);
    RewriteKeeps(mem, owner, d, v, 0, o1);
    FillKeeps(m1, o1, f, x);
    assert o1 - {f} == owner - {f};
    assert m1[f := x] == Store(mem[f := x], t, v % ENTRIES, 0);
    forall d': nat, v': nat | IsDir(owner, d') && v' < PAGES
      ensures Look(m1[f := x], d', v') == if d' == d && v' == v then 0 else Look(mem, d', v')
    {
      LookStore(mem, owner, d, v, 0, d', v');
      LookFill(m1, o1, f, x, d', v');
    }
  }

  lemma Releases(mem: seq<Page>, owner: map<nat, Owner>, d: nat, v: nat)
    requires Owned(mem, owner) && IsDir(owner, d) && v < USER && HasTable(mem, d, v / ENTRIES)
    requires Present(Look(mem, d, v))
    ensures FrameOf(Look(mem, d, v)) in owner
    ensures Rewrites(mem, owner, d, v, 0, owner[FrameOf(Look(mem, d, v)) := Kernel])
  {
    var f := FrameOf(Look(mem, d, v));
    assert PageOk(mem, owner, d, v);
    forall g | g in owner && owner[g] == UserPage(d, v)
      ensures g == f
    {
      assert OwnerOk(mem, owner, g);
    }
  }

  // ---------- Unmapping a range ----------

  function PagesUp(sz: nat): nat {
    (sz + PAGESIZE - 1) / PAGESIZE
  }

  function Least(x: nat, y: nat): nat {
    if x < y then x else y
  }

  lemma PagesUpBelow(sz: nat, v: nat)
    requires v * PAGESIZE < sz
    ensures v < PagesUp(sz)
  {
  }

  lemma PagesUpAbove(sz: nat, v: nat)
    requires v * PAGESIZE >= sz
    ensures v >= PagesUp(sz)
  {
  }

  lemma PagesUpBound(sz: nat, v: nat)
    requires sz <= v * PAGESIZE
    ensures PagesUp(sz) <= v
  {
  }

  /** The record without pages a to b of directory d. */
  ghost function Dropped(owner: map<nat, Owner>, d: nat, a: nat, b: nat): map<nat, Owner> {
    map f | f in owner && !(owner[f].UserPage? && owner[f].d == d && a <= owner[f].v < b) :: owner[f]
  }

  ghost predicate LookCleared(mem: seq<Page>, owner: map<nat, Owner>, mem': seq<Page>, d: nat, a: nat, b: nat) {
    forall d': nat, v: nat :: IsDir(owner, d') && v < PAGES ==>
      Look(mem', d', v) == if d' == d && a <= v < b && Present(Look(mem, d, v)) then 0 else Look(mem, d', v)
  }

  /** Pages a to b of directory d are unmapped and their frames given up; every other page of every directory is
      mapped as before and holds what it held. */
  ghost predicate Cleared(mem: seq<Page>, owner: map<nat, Owner>, mem': seq<Page>, owner': map<nat, Owner>,
                          d: nat, a: nat, b: nat) {
    && |mem'| == |mem|
    && LookCleared(mem, owner, mem', d, a, b)
    && owner' == Dropped(owner, d, a, b)
    && SameData(mem, owner', mem')
  }

  lemma ClearedStart(mem: seq<Page>, owner: map<nat, Owner>, d: nat, a: nat, b: nat)
    requires b <= a
    ensures Cleared(mem, owner, mem, owner, d, a, b)
  {
    assert Dropped(owner, d, a, b) == owner;
  }

  /** PGADDR(PDX(a) + 1, 0, 0): the first page of the next page table. */
  function NextTable(v: nat): (n: nat)
    ensures v < n
  {
    (v / ENTRIES + 1) * ENTRIES
  }

  lemma NoTable(mem: seq<Page>, d: nat, v: nat, x: nat)
    requires v <= x < NextTable(v) && x < USER && !HasTable(mem, d, v / ENTRIES)
    ensures Look(mem, d, x) == 0
  {
    assert x / ENTRIES == v / ENTRIES;
  }

  /** The 4 megabyte step passes no mapped page. */
  lemma SkipTable(m0: seq<Page>, o0: map<nat, Owner>, mem: seq<Page>, owner: map<nat, Owner>, d: nat, a: nat, v: nat,
                  b: nat)
    requires Owned(m0, o0) && IsDir(o0, d) && a <= v < b <= USER && Cleared(m0, o0, mem, owner, d, a, v)
    requires !HasTable(mem, d, v / ENTRIES)
    ensures Cleared(m0, o0, mem, owner, d, a, Least(NextTable(v), b))
  {
    forall x: nat | v <= x < Least(NextTable(v), b)
      ensures !Present(Look(mem, d, x))
    {
      NoTable(mem, d, v, x);
    }
    SkipClear(m0, o0, mem, owner, d, a, v, Least(NextTable(v), b));
  }

  /** Passing pages v to w that are not mapped. */
  lemma SkipClear(m0: seq<Page>, o0: map<nat, Owner>, mem: seq<Page>, owner: map<nat, Owner>, d: nat, a: nat, v: nat,
                  w: nat)
    requires Owned(m0, o0) && IsDir(o0, d) && a <= v <= w <= USER && Cleared(m0, o0, mem, owner, d, a, v)
    requires forall x: nat :: v <= x < w ==> !Present(Look(mem, d, x))
    ensures Cleared(m0, o0, mem, owner, d, a, w)
  {
    forall x: nat | v <= x < w
      ensures !Present(Look(m0, d, x))
    {
      assert Look(mem, d, x) == Look(m0, d, x);
    }
    forall f | f in o0
      ensures !(o0[f].UserPage? && o0[f].d == d && v <= o0[f].v < w)
    {
      assert OwnerOk(m0, o0, f);
    }
    assert Dropped(o0, d, a, w) == Dropped(o0, d, a, v);
  }

  lemma SkipPage(m0: seq<Page>, o0: map<nat, Owner>, mem: seq<Page>, owner: map<nat, Owner>, d: nat, a: nat, v: nat)
    requires Owned(m0, o0) && IsDir(o0, d) && a <= v < USER && Cleared(m0, o0, mem, owner, d, a, v)
    requires !Present(Look(mem, d, v))
    ensures Cleared(m0, o0, mem, owner, d, a, v + 1)
  {
    forall x: nat | v <= x < v + 1
      ensures !Present(Look(mem, d, x))
    {
    }
    SkipClear(m0, o0, mem, owner, d, a, v, v + 1);
  }

  /** Unmapping page v. */
  lemma UnmapClear(m0: seq<Page>, o0: map<nat, Owner>, m1: seq<Page>, o1: map<nat, Owner>, m2: seq<Page>,
                   o2: map<nat, Owner>,
                   d: nat, a: nat, v: nat)
    requires Owned(m0, o0) && IsDir(o0, d) && a <= v < USER && Cleared(m0, o0, m1, o1, d, a, v)
    requires Present(Look(m1, d, v)) && |m2| == |m1|
    requires SetLook(m1, o1, m2, d, v, 0) && SameData(m1, o2, m2) && o2 == o1 - {FrameOf(Look(m1, d, v))}
    ensures Cleared(m0, o0, m2, o2, d, a, v + 1)
  {
    var g := FrameOf(Look(m0, d, v));
    assert Look(m1, d, v) == Look(m0, d, v);
    assert PageOk(m0, o0, d, v);
    forall f | f in o0
      ensures o0[f] == UserPage(d, v) ==> f == g
    {
      assert OwnerOk(m0, o0, f);
    }
    assert Dropped(o0, d, a, v + 1) == Dropped(o0, d, a, v) - {g};
    forall f: nat | IsData(o2, f) && f < |m0|
      ensures m2[f] == m0[f]
    {
      assert IsData(o1, f);
    }
  }

  // ---------- Mapping a range ----------

  /** Page v of directory d, not mapped before, is frame f with contents x; other pages are mapped as before, and
      besides f only page tables of d have changed hands. */
  ghost predicate AddsPage(mem: seq<Page>, owner: map<nat, Owner>, mem': seq<Page>, owner': map<nat, Owner>,
                           d: nat, v: nat, f: nat, x: Page, perm: nat) {
    && SetLook(mem, owner, mem', d, v, Entry(f, perm))
    && f !in owner && f < |mem'| && mem'[f] == x
    && OnlyTables(owner[f := UserPage(d, v)], owner', d)
    && SameData(mem, owner, mem')
  }

  lemma AddsPageAfter(m0: seq<Page>, o0: map<nat, Owner>, m1: seq<Page>, o1: map<nat, Owner>, m2: seq<Page>,
                      o2: map<nat, Owner>,
                      d: nat, v: nat, f: nat, perm: nat)
    requires f !in o0 && o1 == o0[f := Kernel] && f < |m0| == |m1| && m1 == m0[f := m1[f]]
    requires SameLook(m0, o0, m1) && SetLook(m1, o1, m2, d, v, Entry(f, perm)) && SameData(m1, o1, m2)
    requires OnlyTables(o1[f := UserPage(d, v)], o2, d)
    ensures AddsPage(m0, o0, m2, o2, d, v, f, m1[f], perm)
  {
    assert o1[f := UserPage(d, v)] == o0[f := UserPage(d, v)];
    assert IsData(o1, f);
    forall g: nat | IsData(o0, g) && g < |m0|
      ensures m2[g] == m0[g]
    {
      assert IsData(o1, g);
    }
  }

  /** What a page is to hold, and its permissions. */
  datatype Image = Image(page: Page, perm: nat)

  /** Page x of directory d is a frame that nobody held in o0, with the image's contents and permissions. */
  ghost predicate NewPage(o0: map<nat, Owner>, mem: seq<Page>, owner: map<nat, Owner>, d: nat, x: nat, image: Image)
    requires x < PAGES
  {
    var e := Look(mem, d, x);
    && Present(e) && e == Entry(FrameOf(e), image.perm)
    && FrameOf(e) !in o0 && FrameOf(e) in owner && FrameOf(e) < |mem| && mem[FrameOf(e)] == image.page
  }

  /** What has changed hands: frames from the free list to pages a to v and page tables of d. */
  ghost predicate Gained(owner: map<nat, Owner>, owner': map<nat, Owner>, d: nat, a: nat, v: nat) {
    && (forall f :: f in owner ==> f in owner' && owner'[f] == owner[f])
    && (forall f :: f in owner' && f !in owner ==>
          && (owner'[f].Table? || owner'[f].UserPage?) && owner'[f].d == d
          && (owner'[f].UserPage? ==> a <= owner'[f].v < v))
  }

  /** Pages a to v of directory d have been made after `images`; every other page of every directory of o0 is mapped
      as before and holds what it held. */
  ghost predicate Built(m0: seq<Page>, o0: map<nat, Owner>, mem: seq<Page>, owner: map<nat, Owner>, d: nat, a: nat,
                        v: nat,
                        images: seq<Image>)
  {
    && v <= |images| && v <= USER && |mem| == |m0|
    && (forall d': nat, x: nat :: IsDir(o0, d') && x < PAGES && !(d' == d && a <= x < v) ==>
          Look(mem, d', x) == Look(m0, d', x))
    && (forall x :: a <= x < v ==> NewPage(o0, mem, owner, d, x, images[x]))
    && Gained(o0, owner, d, a, v)
    && SameData(m0, o0, mem)
  }

  lemma BuiltNext(m0: seq<Page>, o0: map<nat, Owner>, m1: seq<Page>, o1: map<nat, Owner>, m2: seq<Page>, o2: map<nat,
                  Owner>,
                  d: nat, a: nat, v: nat, images: seq<Image>, f: nat)
    requires Owned(m1, o1) && IsDir(o0, d) && a <= v < |images| && v < USER && images[v].perm < PAGESIZE
    requires Built(m0, o0, m1, o1, d, a, v, images)
    requires AddsPage(m1, o1, m2, o2, d, v, f, images[v].page, images[v].perm)
    ensures Built(m0, o0, m2, o2, d, a, v + 1, images)
  {
    EntryParts(f, images[v].perm);
    forall x | a <= x < v + 1
      ensures NewPage(o0, m2, o2, d, x, images[x])
    {
      assert Look(m2, d, x) == if x == v then Entry(f, images[v].perm) else Look(m1, d, x);
      if x < v {
        assert NewPage(o0, m1, o1, d, x, images[x]);
        assert PageOk(m1, o1, d, x);
        assert IsData(o1, FrameOf(Look(m1, d, x)));
      }
    }
    forall g: nat | IsData(o0, g) && g < |m0|
      ensures m2[g] == m0[g]
    {
      assert IsData(o1, g);
    }
  }

  /** Pages a to b of directory d are not mapped, and the frames they had are given up; every other page of every
      directory is mapped as before and holds what it held, and besides only page tables of d have changed hands. */
  ghost predicate Undone(m0: seq<Page>, o0: map<nat, Owner>, mem: seq<Page>, owner: map<nat, Owner>, d: nat, a: nat,
                         b: nat) {
    && (forall d': nat, x: nat :: IsDir(o0, d') && x < PAGES ==>
          if d' == d && a <= x < b then Look(mem, d, x) == 0
                                      || (!Present(Look(m0, d, x)) && Look(mem, d, x) == Look(m0, d, x))
          else Look(mem, d', x) == Look(m0, d', x))
    && OnlyTables(Dropped(o0, d, a, b), owner, d)
    && SameData(m0, Dropped(o0, d, a, b), mem)
  }

  /** None of the user pages a to b of directory d is mapped; all of them are. */
  ghost predicate NoneMapped(mem: seq<Page>, d: nat, a: nat, b: nat) {
    forall x: nat :: a <= x < b && x < USER ==> !Present(Look(mem, d, x))
  }

  ghost predicate AllMapped(mem: seq<Page>, d: nat, a: nat, b: nat) {
    forall x: nat :: a <= x < b && x < USER ==> Present(Look(mem, d, x))
  }

  lemma MappedNext(mem: seq<Page>, d: nat, a: nat, v: nat)
    requires a <= v < USER
    ensures NoneMapped(mem, d, a, v + 1) <==> NoneMapped(mem, d, a, v) && !Present(Look(mem, d, v))
    ensures AllMapped(mem, d, a, v + 1) <==> AllMapped(mem, d, a, v) && Present(Look(mem, d, v))
  {
  }

  lemma MappedWithin(mem: seq<Page>, d: nat, a: nat, v: nat, b: nat)
    requires a <= v < b && v < USER
    ensures NoneMapped(mem, d, a, b) ==> !Present(Look(mem, d, v))
    ensures AllMapped(mem, d, a, b) ==> Present(Look(mem, d, v))
  {
  }

  /** Where nothing was mapped, that changes nothing but page tables. */
  lemma UndoneSame(m0: seq<Page>, o0: map<nat, Owner>, mem: seq<Page>, owner: map<nat, Owner>, d: nat, a: nat, b: nat)
    requires Owned(m0, o0) && IsDir(o0, d) && b <= USER && Undone(m0, o0, mem, owner, d, a, b)
    requires forall x: nat :: a <= x < b ==> Look(m0, d, x) == 0
    ensures SameLook(m0, o0, mem) && SameData(m0, o0, mem) && OnlyTables(o0, owner, d)
  {
    assert Dropped(o0, d, a, b) == o0 by {
      forall f | f in o0
        ensures f in Dropped(o0, d, a, b)
      {
        assert OwnerOk(m0, o0, f);
      }
    }
  }

  /** Unmapping pages a to b undoes the building of some of them. */
  lemma ClearUndoesBuild(m0: seq<Page>, o0: map<nat, Owner>, m1: seq<Page>, o1: map<nat, Owner>, m2: seq<Page>,
                         o2: map<nat, Owner>,
                         d: nat, a: nat, v: nat, b: nat, images: seq<Image>)
    requires IsDir(o0, d) && v <= b <= USER
    requires Built(m0, o0, m1, o1, d, a, v, images) && Cleared(m1, o1, m2, o2, d, a, b)
    ensures Undone(m0, o0, m2, o2, d, a, b)
  {
    forall d': nat, x: nat | IsDir(o0, d') && x < PAGES
      ensures if d' == d && a <= x < b then Look(m2, d, x) == 0
                                            || (!Present(Look(m0, d, x)) && Look(m2, d, x) == Look(m0, d, x))
              else Look(m2, d', x) == Look(m0, d', x)
    {
      assert IsDir(o1, d');
      if d' == d && a <= x < v {
        assert NewPage(o0, m1, o1, d, x, images[x]);
      }
    }
    var kept := Dropped(o0, d, a, b);
    forall g: nat | IsData(kept, g) && g < |m0|
      ensures m2[g] == m0[g]
    {
      assert IsData(o0, g) && IsData(o2, g);
    }
  }

  /** Clearing a range and then freeing a frame f of the kernel's, when f was taken before. */
  lemma UndoClear(m0: seq<Page>, o0: map<nat, Owner>, m1: seq<Page>, m2: seq<Page>, o2: map<nat, Owner>,
                  d: nat, a: nat, b: nat, f: nat, x: Page)
    requires Owned(m0, o0) && Owned(m2, o2) && SameLook(m0, o0, m1) && SameData(m0, o0, m1) && IsDir(o0, d)
    requires f != 0 ==> f !in o0
    requires Cleared(m1, if f == 0 then o0 else o0[f := Kernel], m2, o2, d, a, b)
    ensures f == 0 ==> Cleared(m0, o0, m2, o2, d, a, b)
    ensures f != 0 ==> f in o2 && o2[f] == Kernel && (f < |m2| ==> Cleared(m0, o0, m2[f := x], o2 - {f}, d, a, b))
  {
    var o1 := if f == 0 then o0 else o0[f := Kernel];
    var m3 := if 0 < f < |m2| then m2[f := x] else m2;
    var o3 := if f == 0 then o2 else o2 - {f};
    assert o3 == Dropped(o0, d, a, b);
    forall d': nat, v: nat | IsDir(o0, d') && v < PAGES
      ensures Look(m3, d', v) == if d' == d && a <= v < b && Present(Look(m0, d, v)) then 0 else Look(m0, d', v)
    {
      assert IsDir(o1, d') && IsDir(o2, d');
      if 0 < f < |m2| {
        LookFill(m2, o2, f, x, d', v);
      }
    }
    forall g: nat | IsData(o3, g) && g < |m0|
      ensures m3[g] == m0[g]
    {
      assert IsData(o2, g) && IsData(o0, g);
    }
  }

  const FRESH: Image := Image(ZEROPAGE, PTE_W + PTE_U)

  ghost function ZeroImages(n: nat): (s: seq<Image>)
    ensures |s| == n
  {
    seq(n, _ => FRESH)
  }

  lemma BuiltNone(mem: seq<Page>, owner: map<nat, Owner>, d: nat, a: nat, images: seq<Image>)
    requires a <= |images| && a <= USER
    ensures Built(mem, owner, mem, owner, d, a, a, images)
  {
  }

  lemma PagesUpOrder(x: nat, y: nat)
    requires x <= y
    ensures PagesUp(x) <= PagesUp(y)
  {
  }

  lemma PagesUpStrict(x: nat, y: nat, v: nat)
    requires PagesUp(x) <= v && v * PAGESIZE < y
    ensures x < y
  {
  }

  // ---------- Giving a directory up ----------

  /** The record without the first n page tables of directory d. */
  ghost function NoTables(owner: map<nat, Owner>, d: nat, n: nat): map<nat, Owner> {
    map f | f in owner && !(owner[f].Table? && owner[f].d == d && owner[f].i < n) :: owner[f]
  }

  predicate Belongs(o: Owner, d: nat) {
    (o.Table? || o.UserPage?) && o.d == d
  }

  /** The record without directory d, its tables and its pages. */
  ghost function Without(owner: map<nat, Owner>, d: nat): map<nat, Owner> {
    map f | f in owner && f != d && !Belongs(owner[f], d) :: owner[f]
  }

  /** Frames still held hold what they held. */
  ghost predicate Kept(mem: seq<Page>, owner: map<nat, Owner>, mem': seq<Page>) {
    |mem'| == |mem| && forall f :: f in owner && f < |mem| ==> mem'[f] == mem[f]
  }

  lemma NoTablesNext(mem: seq<Page>, owner: map<nat, Owner>, d: nat, i: nat)
    requires Owned(mem, owner) && IsDir(owner, d) && d < |mem| && i < ENTRIES
    ensures var t := FrameOf(mem[d][i]);
            if Present(mem[d][i])
            then t in NoTables(owner, d, i) && NoTables(owner, d, i + 1) == NoTables(owner, d, i) - {t} && t != d
            else NoTables(owner, d, i + 1) == NoTables(owner, d, i)
  {
    assert TableOk(mem, owner, d, i);
    forall f | f in owner && owner[f] == Table(d, i)
      ensures Present(mem[d][i]) && f == FrameOf(mem[d][i])
    {
      assert OwnerOk(mem, owner, f);
    }
  }

  lemma DropDir(mem: seq<Page>, owner: map<nat, Owner>, mem': seq<Page>, d: nat)
    requires Owned(mem, owner) && Kept(mem, Without(owner, d), mem')
    requires IsDir(owner, d)
    ensures Owned(mem', Without(owner, d)) && SameLook(mem, Without(owner, d), mem')
  {
    var owner' := Without(owner, d);
    forall d': nat, v: nat | IsDir(owner', d') && v < PAGES
      ensures Look(mem', d', v) == Look(mem, d', v)
    {
      assert OwnerOk(mem, owner, d');
      assert TableOk(mem, owner, d', v / ENTRIES);
    }
    forall f | f in owner'
      ensures OwnerOk(mem', owner', f)
    {
      assert OwnerOk(mem, owner, f);
    }
    forall d': nat, i: nat | IsDir(owner', d') && d' < |mem'| && i < ENTRIES
      ensures TableOk(mem', owner', d', i)
    {
      assert TableOk(mem, owner, d', i);
    }
    forall d': nat, v: nat | IsDir(owner', d') && v < USER
      ensures PageOk(mem', owner', d', v)
    {
      assert PageOk(mem, owner, d', v);
    }
  }

  lemma FreevmKeeps(m0: seq<Page>, o0: map<nat, Owner>, m1: seq<Page>, o1: map<nat, Owner>, m2: seq<Page>,
                    o2: map<nat, Owner>, d: nat)
    requires Owned(m0, o0) && Owned(m1, o1) && IsDir(o0, d) && Cleared(m0, o0, m1, o1, d, 0, USER)
    requires o2 == NoTables(o1, d, ENTRIES) - {d} && Kept(m1, o2, m2)
    ensures o2 == Without(o0, d) && Owned(m2, o2) && SameLook(m0, o2, m2) && SameData(m0, o2, m2)
  {
    forall f | f in o0
      ensures o0[f].Table? ==> o0[f].i < ENTRIES
      ensures o0[f].UserPage? ==> o0[f].v < USER
    {
      assert OwnerOk(m0, o0, f);
    }
    assert o2 == Without(o0, d) == Without(o1, d);
    DropDir(m1, o1, m2, d);
    forall d': nat, v: nat | IsDir(o2, d') && v < PAGES
      ensures Look(m2, d', v) == Look(m0, d', v)
    {
      assert IsDir(o0, d');
    }
    forall f: nat | IsData(o2, f) && f < |m0|
      ensures m2[f] == m0[f]
    {
      assert IsData(o1, f);
    }
  }

  /** The frames that changed hands from somebody to nobody are on the free list now. */
  lemma FreedNow(lo: nat, m0: seq<Page>, h0: nat, free0: seq<nat>, o0: map<nat, Owner>,
                 m1: seq<Page>, h1: nat, free1: seq<nat>, o1: map<nat, Owner>)
    requires Pool(lo, m0, h0, free0, o0.Keys) && Pool(lo, m1, h1, free1, o1.Keys) && |m0| == |m1|
    requires o1.Keys <= o0.Keys
    ensures forall f :: f in free1 <==> f in free0 || (f in o0 && f !in o1)
  {
    forall f
      ensures f in free1 <==> f in free0 || (f in o0 && f !in o1)
    {
      if f in free1 {
        var k :| 0 <= k < |free1| && free1[k] == f;
        assert LinkOk(m1, free1, k);
      }
      if f in free0 {
        var k :| 0 <= k < |free0| && free0[k] == f;
        assert LinkOk(m0, free0, k);
      }
    }
  }

  // ---------- Kernel mappings ----------

  /** A line of kmap: n pages from page virt map to frames from phys. */
  datatype Range = Range(virt: nat, phys: nat, n: nat, perm: nat) {
    predicate Has(x: nat) {
      virt <= x < virt + n
    }

    predicate Ok() {
      USER <= virt && 0 < n && virt + n <= PAGES && perm < PAGESIZE
    }
  }

  /** Directory d maps the first n pages of the range as it says, and everything else is mapped as before. */
  ghost predicate RangeLook(mem: seq<Page>, owner: map<nat, Owner>, mem': seq<Page>, d: nat, k: Range, n: nat) {
    forall d': nat, x: nat :: IsDir(owner, d') && x < PAGES ==>
      Look(mem', d', x) ==
        if d' == d && k.virt <= x < k.virt + n then Entry(k.phys + (x - k.virt), k.perm) else Look(mem, d', x)
  }

  lemma RangeSame(m0: seq<Page>, o0: map<nat, Owner>, m1: seq<Page>, m2: seq<Page>, d: nat, k: Range, n: nat)
    requires RangeLook(m0, o0, m1, d, k, n) && SameLook(m1, o0, m2)
    ensures RangeLook(m0, o0, m2, d, k, n)
  {
  }

  lemma RangeNext(m0: seq<Page>, o0: map<nat, Owner>, m1: seq<Page>, o1: map<nat, Owner>, m2: seq<Page>, o2: map<nat,
                  Owner>,
                  d: nat, k: Range, n: nat)
    requires RangeLook(m0, o0, m1, d, k, n) && OnlyTables(o0, o1, d) && OnlyTables(o1, o2, d)
    requires SetLook(m1, o1, m2, d, k.virt + n, Entry(k.phys + n, k.perm)) && SameData(m0, o0, m1)
    requires SameData(m1, o1, m2)
    ensures RangeLook(m0, o0, m2, d, k, n + 1) && SameData(m0, o0, m2)
  {
    forall f: nat | IsData(o0, f) && f < |m0|
      ensures m2[f] == m0[f]
    {
      assert IsData(o1, f);
    }
  }

  /** Frame and page numbers of memlayout.h. */
  const EXTMEM: nat := 0x100
  const PHYSTOP: nat := 0xE000
  const DEVSPACE: nat := 0xFE000

  function Kmap(data: nat): seq<Range>
    requires EXTMEM < data < PHYSTOP
  {
    [Range(USER, 0, EXTMEM, PTE_W), Range(USER + EXTMEM, EXTMEM, data - EXTMEM, 0),
     Range(USER + data, data, PHYSTOP - data, PTE_W), Range(DEVSPACE, DEVSPACE, PAGES - DEVSPACE, PTE_W)]
  }

  /** What the hardware is to find for page x after these lines of kmap, later ones first. */
  function KernelEntry(kmap: seq<Range>, x: nat): nat {
    if kmap == [] then 0
    else
      var k := kmap[|kmap| - 1];
      if k.Has(x) then Entry(k.phys + (x - k.virt), k.perm) else KernelEntry(kmap[..|kmap| - 1], x)
  }

  ghost predicate Maps(mem: seq<Page>, d: nat, kmap: seq<Range>) {
    forall x: nat :: x < PAGES ==> Look(mem, d, x) == KernelEntry(kmap, x)
  }

  /** The lines of kmap are good and do not overlap, so mappages never finds a page mapped. */
  lemma KmapOk(data: nat, k: nat)
    requires EXTMEM < data < PHYSTOP && k < 4
    ensures Kmap(data)[k].Ok()
    ensures forall x: nat :: Kmap(data)[k].Has(x) ==> KernelEntry(Kmap(data)[..k], x) == 0
  {
    var kmap := Kmap(data);
    forall x: nat | kmap[k].Has(x)
      ensures KernelEntry(kmap[..k], x) == 0
    {
      NoEntry(kmap[..k], x);
    }
  }

  lemma {:induction false} NoEntry(kmap: seq<Range>, x: nat)
    requires forall j :: 0 <= j < |kmap| ==> !kmap[j].Has(x)
    ensures KernelEntry(kmap, x) == 0
  {
    if kmap != [] {
      NoEntry(kmap[..|kmap| - 1], x);
    }
  }

  /** What the entry e of page x is to say once the kernel is mapped, in the numbers of memlayout.h and mmu.h: physical
      memory from page 0x80000 on, read-only from there past the first megabyte up to the kernel's data and writable
      elsewhere, the devices from page 0xFE000 on at their own addresses, and nothing open to user code. */
  predicate KernelPage(e: nat, x: nat, data: nat) {
    if 0x80000 <= x < 0x8E000 then
      e / 4096 == x - 0x80000 && e % 4096 == if 0x80100 <= x < 0x80000 + data then 1 else 3
    else if x >= 0xFE000 then e / 4096 == x && e % 4096 == 3
    else e == 0
  }

  lemma KmapMeans(data: nat, x: nat)
    requires EXTMEM < data < PHYSTOP && x < PAGES
    ensures KernelPage(KernelEntry(Kmap(data), x), x, data)
  {
    var kmap := Kmap(data);
    assert KernelEntry(kmap, x) ==
           if kmap[3].Has(x) then Entry(x, PTE_W) else KernelEntry(kmap[..3], x);
    assert kmap[..3][..2] == kmap[..2] && kmap[..2][..1] == kmap[..1];
    assert KernelEntry(kmap[..3], x) ==
           if kmap[2].Has(x) then Entry(x - USER, PTE_W) else KernelEntry(kmap[..2], x);
    assert KernelEntry(kmap[..2], x) ==
           if kmap[1].Has(x) then Entry(x - USER, 0) else KernelEntry(kmap[..1], x);
    if kmap[3].Has(x) {
      EntryParts(x, PTE_W);
    } else if kmap[2].Has(x) || kmap[0].Has(x) {
      EntryParts(x - USER, PTE_W);
    } else if kmap[1].Has(x) {
      EntryParts(x - USER, 0);
    } else {
      NoEntry(kmap, x);
    }
  }

  /** From page a on, the hardware finds the kernel's mappings and no others. */
  lemma MapsMeans(mem: seq<Page>, d: nat, data: nat, a: nat)
    requires EXTMEM < data < PHYSTOP
    requires forall x: nat :: a <= x < PAGES ==> Look(mem, d, x) == KernelEntry(Kmap(data), x)
    ensures forall x: nat :: a <= x < PAGES ==> KernelPage(Look(mem, d, x), x, data)
  {
    forall x: nat | a <= x < PAGES
      ensures KernelPage(Look(mem, d, x), x, data)
    {
      KmapMeans(data, x);
    }
  }

  /** Directory d is new since (m0, o0), and with it some page tables; nothing else has changed. */
  ghost predicate Making(m0: seq<Page>, o0: map<nat, Owner>, mem: seq<Page>, owner: map<nat, Owner>, d: nat) {
    && d !in o0 && IsDir(owner, d) && Owned(m0, o0)
    && OnlyTables(o0[d := Directory], owner, d)
    && SameLook(m0, o0, mem) && SameData(m0, o0, mem)
  }

  lemma KmapNext(m0: seq<Page>, o0: map<nat, Owner>, m1: seq<Page>, o1: map<nat, Owner>, m2: seq<Page>, o2: map<nat,
                 Owner>,
                 d: nat, kmap: seq<Range>, k: nat, r: Outcome)
    requires k < |kmap| && kmap[k].Ok() && Making(m0, o0, m1, o1, d)
    requires SameData(m1, o1, m2) && OnlyTables(o1, o2, d) && Maps(m1, d, kmap[..k])
    requires forall x: nat :: kmap[k].Has(x) ==> KernelEntry(kmap[..k], x) == 0
    requires r.Remap? ==> exists x: nat :: kmap[k].Has(x) && Present(Look(m1, d, x))
    requires r.Done? ==> RangeLook(m1, o1, m2, d, kmap[k], kmap[k].n)
    requires !r.Done? ==> exists n :: 0 <= n < kmap[k].n && RangeLook(m1, o1, m2, d, kmap[k], n)
    ensures !r.Remap?
    ensures Making(m0, o0, m2, o2, d)
    ensures r.Done? ==> Maps(m2, d, kmap[..k + 1])
  {
    if r.Done? {
      assert kmap[..k + 1][..k] == kmap[..k];
      forall x: nat | x < PAGES
        ensures Look(m2, d, x) == KernelEntry(kmap[..k + 1], x)
      {
        assert Look(m1, d, x) == KernelEntry(kmap[..k], x);
      }
    }
    forall f: nat | IsData(o0, f) && f < |m0|
      ensures m2[f] == m0[f]
    {
      assert IsData(o1, f);
    }
  }

  /** Freeing the directory that was being made gives everything back. */
  lemma SetupUndone(m0: seq<Page>, o0: map<nat, Owner>, m1: seq<Page>, o1: map<nat, Owner>, m2: seq<Page>,
                    o2: map<nat, Owner>, d: nat)
    requires Owned(m0, o0) && d !in o0
    requires SameLook(m0, o0, m1) && SameData(m0, o0, m1)
    requires forall f :: f in o0 ==> f in o1 && o1[f] == o0[f]
    requires forall f :: f in o1 && f !in o0 ==> f == d || Belongs(o1[f], d)
    requires o2 == Without(o1, d) && SameLook(m1, o2, m2) && SameData(m1, o2, m2)
    ensures o2 == o0 && SameLook(m0, o0, m2) && SameData(m0, o0, m2)
  {
    forall f | f in o0
      ensures !Belongs(o0[f], d)
    {
      assert OwnerOk(m0, o0, f);
    }
    assert o2 == o0;
  }

  // ---------- Copying ----------

  /** What page x of directory p holds, and its flags. */
  ghost function PageImage(mem: seq<Page>, p: nat, x: nat): Image
    requires x < PAGES
  {
    var e := Look(mem, p, x);
    Image(if FrameOf(e) < |mem| then mem[FrameOf(e)] else Junk(0), FlagsOf(e))
  }

  lemma FreedAgain(m0: seq<Page>, o0: map<nat, Owner>, m1: seq<Page>, f: nat, x: Page)
    requires Owned(m1, o0[f := Kernel]) && f !in o0 && f < |m1| && SameLook(m0, o0, m1) && SameData(m0, o0, m1)
    ensures o0[f := Kernel] - {f} == o0 && SameLook(m0, o0, m1[f := x]) && SameData(m0, o0, m1[f := x])
  {
    forall d: nat, v: nat | IsDir(o0, d) && v < PAGES
      ensures Look(m1[f := x], d, v) == Look(m0, d, v)
    {
      assert IsDir(o0[f := Kernel], d);
      LookFill(m1, o0[f := Kernel], f, x, d, v);
    }
  }

  /** In the middle of a copy: the page to copy is as it was at the start, and its place is still empty. */
  lemma CopyReady(m0: seq<Page>, o0: map<nat, Owner>, mS: seq<Page>, oS: map<nat, Owner>, m1: seq<Page>, o1: map<nat,
                  Owner>,
                  p: nat, d: nat, v: nat, images: seq<Image>, data: nat)
    requires IsDir(o0, p) && EXTMEM < data < PHYSTOP && Making(m0, o0, mS, oS, d) && Maps(mS, d, Kmap(data))
    requires Built(mS, oS, m1, o1, d, 0, v, images) && v < |images| && v < USER
    requires images[v] == PageImage(m0, p, v)
    ensures IsDir(o1, p) && IsDir(o1, d) && !Present(Look(m1, d, v))
    ensures Look(m1, p, v) == Look(m0, p, v) && images[v].perm < PAGESIZE
    ensures Present(Look(m0, p, v)) ==> PageImage(m1, p, v) == images[v]
  {
    assert Look(mS, d, v) == KernelEntry(Kmap(data), v);
    NoEntry(Kmap(data), v);
    if Present(Look(m0, p, v)) {
      assert PageOk(m0, o0, p, v);
      var f := FrameOf(Look(m0, p, v));
      assert OwnerOk(m0, o0, f);
      assert IsData(o0, f) && IsData(oS, f);
    }
  }

  lemma CopyUndone(m0: seq<Page>, o0: map<nat, Owner>, mS: seq<Page>, oS: map<nat, Owner>, m1: seq<Page>,
                   o1: map<nat, Owner>,
                   m2: seq<Page>, m3: seq<Page>, o3: map<nat, Owner>, d: nat, v: nat, images: seq<Image>)
    requires Making(m0, o0, mS, oS, d) && Built(mS, oS, m1, o1, d, 0, v, images)
    requires SameLook(m1, o1, m2) && SameData(m1, o1, m2)
    requires o3 == Without(o1, d) && SameLook(m2, o3, m3) && SameData(m2, o3, m3)
    ensures o3 == o0 && SameLook(m0, o0, m3) && SameData(m0, o0, m3)
  {
    forall d': nat, x: nat | IsDir(o0, d') && x < PAGES
      ensures Look(m2, d', x) == Look(m0, d', x)
    {
      assert IsDir(oS, d') && IsDir(o1, d');
    }
    forall f: nat | IsData(o0, f) && f < |m0|
      ensures m2[f] == m0[f]
    {
      assert IsData(oS, f) && IsData(o1, f);
    }
    SetupUndone(m0, o0, m2, o1, m3, o3, d);
  }

  lemma CopyDone(m0: seq<Page>, o0: map<nat, Owner>, mS: seq<Page>, oS: map<nat, Owner>, m1: seq<Page>, o1: map<nat,
                 Owner>,
                 p: nat, d: nat, n: nat, images: seq<Image>, data: nat)
    requires EXTMEM < data < PHYSTOP && Making(m0, o0, mS, oS, d) && Maps(mS, d, Kmap(data))
    requires Built(mS, oS, m1, o1, d, 0, n, images) && n == |images|
    requires forall x: nat :: x < n ==> images[x] == PageImage(m0, p, x)
    ensures d !in o0 && IsDir(o1, d) && SameLook(m0, o0, m1) && SameData(m0, o0, m1)
    ensures forall x: nat :: x < n ==> NewPage(o0, m1, o1, d, x, PageImage(m0, p, x))
    ensures forall x: nat :: n <= x < PAGES ==> Look(m1, d, x) == KernelEntry(Kmap(data), x)
  {
    forall x: nat | x < n
      ensures NewPage(o0, m1, o1, d, x, PageImage(m0, p, x))
    {
      assert NewPage(oS, m1, o1, d, x, images[x]);
    }
    forall d': nat, x: nat | IsDir(o0, d') && x < PAGES
      ensures Look(m1, d', x) == Look(m0, d', x)
    {
      assert IsDir(oS, d');
    }
    forall f: nat | IsData(o0, f) && f < |m0|
      ensures m1[f] == m0[f]
    {
      assert IsData(oS, f);
    }
    forall x: nat | n <= x < PAGES
      ensures Look(m1, d, x) == KernelEntry(Kmap(data), x)
    {
      assert Look(m1, d, x) == Look(mS, d, x);
    }
  }

  /** Entries of two memories that point to equal pages and have the same flags. */
  predicate SamePage(mem: seq<Page>, e: nat, mem0: seq<Page>, e0: nat) {
    e % 4096 == e0 % 4096 && e / 4096 < |mem| && e0 / 4096 < |mem0| && mem[e / 4096] == mem0[e0 / 4096]
  }

  lemma CopiesMean(m0: seq<Page>, o0: map<nat, Owner>, mem: seq<Page>, owner: map<nat, Owner>, p: nat, d: nat, n: nat)
    requires Owned(m0, o0) && IsDir(o0, p) && n <= USER && AllMapped(m0, p, 0, n)
    requires forall x: nat :: x < n ==> NewPage(o0, mem, owner, d, x, PageImage(m0, p, x))
    ensures forall x: nat :: x < n ==> SamePage(mem, Look(mem, d, x), m0, Look(m0, p, x))
  {
    forall x: nat | x < n
      ensures SamePage(mem, Look(mem, d, x), m0, Look(m0, p, x))
    {
      var e, e0 := Look(mem, d, x), Look(m0, p, x);
      assert NewPage(o0, mem, owner, d, x, PageImage(m0, p, x));
      assert Present(e0) && PageOk(m0, o0, p, x) && OwnerOk(m0, o0, FrameOf(e0));
      OddFlags(e0);
      EntryParts(FrameOf(e), FlagsOf(e0));
    }
  }

  /** An entry that lets user code read and write a page of 1024 zero words. */
  predicate BlankPage(mem: seq<Page>, e: nat) {
    e % 4096 == 7 && e / 4096 < |mem| && forall w :: 0 <= w < 1024 ==> mem[e / 4096][w] == 0
  }

  lemma FreshMeans(o0: map<nat, Owner>, mem: seq<Page>, owner: map<nat, Owner>, d: nat, x: nat, n: nat)
    requires x < n <= USER && NewPage(o0, mem, owner, d, x, ZeroImages(n)[x])
    ensures BlankPage(mem, Look(mem, d, x))
  {
    EntryParts(FrameOf(Look(mem, d, x)), PTE_W + PTE_U);
  }

  // ---------- growproc ----------

  /** The user pages of directory d are those below sz. */
  ghost predicate Exactly(mem: seq<Page>, d: nat, sz: nat) {
    forall x: nat :: x < USER ==> (if x < PagesUp(sz) then Present(Look(mem, d, x)) else Look(mem, d, x) == 0)
  }

  lemma GrownExactly(m0: seq<Page>, o0: map<nat, Owner>, mem: seq<Page>, owner: map<nat, Owner>, d: nat, sz: nat,
                     newsz: nat)
    requires IsDir(o0, d) && Exactly(m0, d, sz) && sz <= newsz
    requires Built(m0, o0, mem, owner, d, PagesUp(sz), PagesUp(newsz), ZeroImages(PagesUp(newsz)))
    ensures Exactly(mem, d, newsz)
  {
    PagesUpOrder(sz, newsz);
    forall x: nat | x < USER
      ensures if x < PagesUp(newsz) then Present(Look(mem, d, x)) else Look(mem, d, x) == 0
    {
      if PagesUp(sz) <= x < PagesUp(newsz) {
        assert NewPage(o0, mem, owner, d, x, ZeroImages(PagesUp(newsz))[x]);
      }
    }
  }

  lemma Shrunk(m0: seq<Page>, o0: map<nat, Owner>, mem: seq<Page>, owner: map<nat, Owner>, d: nat, sz: nat, newsz: nat)
    requires IsDir(o0, d) && Exactly(m0, d, sz) && sz < USER * PAGESIZE
    requires Cleared(m0, o0, mem, owner, d, PagesUp(newsz), PagesUp(sz))
    ensures newsz < sz ==> Exactly(mem, d, newsz)
    ensures newsz >= sz ==> Exactly(mem, d, sz)
    ensures newsz == 0 < sz ==> !Exactly(mem, d, sz)
  {
    PagesUpOrder(if newsz < sz then newsz else sz, if newsz < sz then sz else newsz);
    if newsz == 0 < sz {
      PagesUpBelow(sz, 0);
      assert Look(mem, d, 0) == 0;
    }
  }

  ghost function AllKernel(a: nat, b: nat): (o: map<nat, Owner>)
    ensures forall f :: f in o <==> a <= f < b
    ensures forall f :: f in o ==> o[f] == Kernel
    decreases b - a
  {
    if a >= b then map[] else AllKernel(a + 1, b)[a := Kernel]
  }

  /** The record without the frames from a to b. */
  ghost function Minus(owner: map<nat, Owner>, a: nat, b: nat): map<nat, Owner> {
    map f | f in owner && !(a <= f < b) :: owner[f]
  }

  lemma MinusNext(owner: map<nat, Owner>, a: nat, f: nat)
    requires a <= f
    ensures Minus(owner, a, f + 1) == Minus(owner, a, f) - {f}
    ensures f in owner ==> f in Minus(owner, a, f) && Minus(owner, a, f)[f] == owner[f]
    ensures Minus(owner, a, a) == owner
  {
  }

  class Memory {
    /** The first frame that kalloc hands out. */
    const lo: nat
    var mem: seq<Page>
    /** kmem.freelist. */
    var head: nat
    ghost var free: seq<nat>
    ghost var owner: map<nat, Owner>

    ghost predicate PoolOk()
      reads this
    {
      Pool(lo, mem, head, free, owner.Keys)
    }

    ghost predicate Valid()
      reads this
    {
      PoolOk() && Owned(mem, owner)
    }

    /** Before kinit1: no frame is on the list. */
    constructor (lo: nat, mem: seq<Page>)
      requires 0 < lo <= |mem|
      ensures Valid() && this.lo == lo && this.mem == mem && free == []
      ensures owner == AllKernel(lo, |mem|)
    {
      this.lo, this.mem, head, free := lo, mem, 0, [];
      owner := AllKernel(lo, |mem|);
    }

    /** freerange: the frames from a to b go on the list. */
    method Freerange(a: nat, b: nat)
      requires Valid() && a <= b && forall f :: a <= f < b ==> f in owner && owner[f] == Kernel
      modifies `mem, `head, `free, `owner
      ensures Valid() && |mem| == |old(mem)|
      ensures owner == Minus(old(owner), a, b)
    {
      var f := a;
      MinusNext(owner, a, a);
      while f < b
        invariant a <= f <= b && Valid() && |mem| == |old(mem)|
        invariant owner == Minus(old(owner), a, f)
      {
        MinusNext(old(owner), a, f);
        FillKeeps(mem, owner, f, Junk(head));
        var ok := Kfree(f);
        f := f + 1;
      }
    }

    method Kalloc() returns (f: nat)
      requires Valid()
      modifies `head, `free, `owner
      ensures Valid()
      ensures f == 0 <==> old(free) == []
      ensures f == 0 ==> head == old(head) && free == old(free) && owner == old(owner)
      ensures f != 0 ==> f == old(free)[0] && lo <= f < |mem| && f !in old(owner)
                         && free == old(free)[1..] && owner == old(owner)[f := Kernel]
    {
      f := FrameAt(head);
      PtrRoundTrip(First(free));
      if f != 0 {
        assert LinkOk(mem, free, 0);
        PoolTake(lo, mem, head, free, owner.Keys);
        TakeKeeps(mem, owner, f);
        head := mem[f][0];
        free := free[1..];
        assert owner.Keys + {f} == owner[f := Kernel].Keys;
        owner := owner[f := Kernel];
      }
    }

    /** kfree: the frame is filled with junk and becomes the head of the list; the range test never panics. */
    method Kfree(f: nat) returns (ok: bool)
      requires PoolOk() && f in owner
      modifies `mem, `head, `free, `owner
      ensures ok && PoolOk() && f < |old(mem)|
      ensures mem == old(mem)[f := Junk(old(head))] && free == [f] + old(free) && owner == old(owner) - {f}
    {
      if f < lo || f >= |mem| {
        return false;
      }
      PoolPut(lo, mem, head, free, owner.Keys, f);
      mem := mem[f := Junk(head)];
      head := PtrTo(f);
      free := [f] + free;
      assert owner.Keys - {f} == (owner - {f}).Keys;
      owner := owner - {f};
      ok := true;
    }

    /** memset or memmove onto a frame that the kernel holds. */
    method Fill(f: nat, x: Page)
      requires Valid() && f in owner && owner[f] == Kernel
      modifies `mem
      ensures Valid() && f < |mem| && mem == old(mem)[f := x] && SameLook(old(mem), owner, mem)
    {
      FillKeeps(mem, owner, f, x);
      PoolFill(lo, mem, head, free, owner.Keys, f, x);
      forall d: nat, v: nat | IsDir(owner, d) && v < PAGES
        ensures Look(mem[f := x], d, v) == Look(mem, d, v)
      {
        LookFill(mem, owner, f, x, d, v);
      }
      mem := mem[f := x];
    }

    /** kalloc, and then memset or memmove to make the frame hold x. */
    method TakeFrame(x: Page) returns (f: nat)
      requires Valid()
      modifies `mem, `head, `free, `owner
      ensures Valid() && |mem| == |old(mem)|
      ensures f == 0 ==>
                old(free) == [] && mem == old(mem) && head == old(head) && free == old(free) && owner == old(owner)
      ensures f != 0 ==> f < |mem| && f !in old(owner) && owner == old(owner)[f := Kernel] && mem == old(mem)[f := x]
      ensures SameLook(old(mem), old(owner), mem)
    {
      f := Kalloc();
      if f != 0 {
        Fill(f, x);
      }
    }

    /** walkpgdir: the page table that covers page v of directory d, made when `alloc` asks for it. */
    method Walk(d: nat, v: nat, alloc: bool) returns (t: nat)
      requires Valid() && IsDir(owner, d) && v < PAGES
      modifies `mem, `head, `free, `owner
      ensures Valid() && SameLook(old(mem), old(owner), mem) && SameData(old(mem), old(owner), mem)
      ensures OnlyTables(old(owner), owner, d)
      ensures t != 0 ==> HasTable(mem, d, v / ENTRIES) && FrameOf(mem[d][v / ENTRIES]) == t
      ensures t == 0 ==> !HasTable(mem, d, v / ENTRIES) && (!alloc || old(free) == [])
      ensures t == 0 || !alloc ==> mem == old(mem) && head == old(head) && free == old(free) && owner == old(owner)
    {
      assert OwnerOk(mem, owner, d);
      assert TableOk(mem, owner, d, v / ENTRIES);
      var pde := mem[d][v / ENTRIES];
      if Present(pde) {
        assert OwnerOk(mem, owner, FrameOf(pde));
        return FrameOf(pde);
      }
      if !alloc { return 0; }
      t := MakeTable(d, v / ENTRIES);
    }

    /** walkpgdir when there is no page table yet. */
    method MakeTable(d: nat, i: nat) returns (t: nat)
      requires Valid() && IsDir(owner, d) && d < |mem| && i < ENTRIES && !Present(mem[d][i])
      modifies `mem, `head, `free, `owner
      ensures Valid() && SameLook(old(mem), old(owner), mem) && SameData(old(mem), old(owner), mem)
      ensures OnlyTables(old(owner), owner, d)
      ensures t != 0 ==> HasTable(mem, d, i) && FrameOf(mem[d][i]) == t
      ensures t == 0 ==>
                old(free) == [] && mem == old(mem) && head == old(head) && free == old(free) && owner == old(owner)
    {
      t := TakeFrame(ZEROPAGE);
      if t == 0 { return; }
      var e := Entry(t, PTE_W + PTE_U);
      AddTable(mem, owner, d, i, t);
      EntryParts(t, PTE_W + PTE_U);
      PoolFill(lo, mem, head, free, owner.Keys, d, mem[d][i := e]);
      mem := Store(mem, d, i, e);
      assert owner.Keys == owner[t := Table(d, i)].Keys;
      owner := owner[t := Table(d, i)];
    }

    /** *pte = e, with the frames that change hands. */
    method SetEntry(d: nat, v: nat, t: nat, e: nat, ghost o': map<nat, Owner>)
      requires Valid() && Rewrites(mem, owner, d, v, e, o') && t == FrameOf(mem[d][v / ENTRIES])
      modifies `mem, `owner
      ensures Valid() && owner == o' && mem == Store(old(mem), t, v % ENTRIES, e)
      ensures SetLook(old(mem), old(owner), mem, d, v, e) && SameData(old(mem), old(owner), mem)
    {
      assert TableOk(mem, owner, d, v / ENTRIES);
      SetLookStore(mem, owner, d, v, e);
      RewriteKeeps(mem, owner, d, v, e, o');
      PoolFill(lo, mem, head, free, owner.Keys, t, mem[t][v % ENTRIES := e]);
      mem := Store(mem, t, v % ENTRIES, e);
      owner := o';
    }

    /** One round of mappages: frame f at page v of directory d.  In the user half the page takes f over. */
    method MapPage(d: nat, v: nat, f: nat, perm: nat) returns (r: Outcome)
      requires Valid() && IsDir(owner, d) && v < PAGES && perm < PAGESIZE
      requires v < USER ==> f in owner && owner[f] == Kernel
      modifies `mem, `head, `free, `owner
      ensures Valid() && SameData(old(mem), old(owner), mem)
      ensures r.Remap? <==> Present(old(Look(mem, d, v)))
      ensures !r.Done? ==> SameLook(old(mem), old(owner), mem) && OnlyTables(old(owner), owner, d)
      ensures r.NoMemory? ==> old(free) == [] && mem == old(mem) && free == old(free) && owner == old(owner)
      ensures r.Done? ==> SetLook(old(mem), old(owner), mem, d, v, Entry(f, perm))
      ensures r.Done? ==> OnlyTables(if v < USER then old(owner)[f := UserPage(d, v)] else old(owner), owner, d)
    {
      assert OwnerOk(mem, owner, d);
      var t := Walk(d, v, true);
      if t == 0 { return NoMemory; }
      if Present(mem[t][v % ENTRIES]) { return Remap; }
      ghost var m, o := mem, owner;
      ghost var o' := if v < USER then owner[f := UserPage(d, v)] else owner;
      Claims(mem, owner, d, v, f, perm);
      SetEntry(d, v, t, Entry(f, perm), o');
      SetLookAfter(old(mem), old(owner), m, o, mem, d, v, Entry(f, perm));
      r := Done;
    }

    /** deallocuvm at a mapped page: kfree its frame, then clear the entry. */
    method UnmapPage(d: nat, v: nat, t: nat) returns (ok: bool)
      requires Valid() && IsDir(owner, d) && v < USER && HasTable(mem, d, v / ENTRIES)
      requires t == FrameOf(mem[d][v / ENTRIES]) && Present(Look(mem, d, v))
      modifies `mem, `head, `free, `owner
      ensures ok && Valid() && |mem| == |old(mem)|
      ensures SetLook(old(mem), old(owner), mem, d, v, 0) && SameData(old(mem), owner, mem)
      ensures owner == old(owner) - {FrameOf(old(Look(mem, d, v)))}
      ensures free == [FrameOf(old(Look(mem, d, v)))] + old(free)
    {
      assert OwnerOk(mem, owner, d);
      assert TableOk(mem, owner, d, v / ENTRIES);
      assert PageOk(mem, owner, d, v);
      var pa := FrameOf(mem[t][v % ENTRIES]);
      if pa == 0 { return false; }
      Unmaps(mem, owner, d, v, Junk(head));
      ok := Kfree(pa);
      PoolFill(lo, mem, head, free, owner.Keys, t, mem[t][v % ENTRIES := 0]);
      mem := Store(mem, t, v % ENTRIES, 0);
    }

    /** A round of deallocuvm's loop, at page v; a directory entry without a page table is passed in one step of
        4 megabytes. */
    method ClearPage(ghost m0: seq<Page>, ghost o0: map<nat, Owner>, d: nat, ghost a: nat, v: nat, ghost b: nat)
        returns (next: nat)
      requires Valid() && IsDir(owner, d) && v < b <= USER
      requires Owned(m0, o0) && IsDir(o0, d) && a <= v && Cleared(m0, o0, mem, owner, d, a, v)
      modifies `mem, `head, `free, `owner
      ensures Valid() && IsDir(owner, d) && v < next && Cleared(m0, o0, mem, owner, d, a, Least(next, b))
    {
      var t := Walk(d, v, false);
      if t == 0 {
        SkipTable(m0, o0, mem, owner, d, a, v, b);
        return NextTable(v);
      }
      next := v + 1;
      if Present(mem[t][v % ENTRIES]) {
        ghost var m, o := mem, owner;
        var ok := UnmapPage(d, v, t);
        UnmapClear(m0, o0, m, o, mem, owner, d, a, v);
      } else {
        SkipPage(m0, o0, mem, owner, d, a, v);
      }
      assert Least(next, b) == v + 1;
    }

    /** deallocuvm: exactly the pages from newsz up to oldsz are unmapped and their frames freed. */
    method Deallocuvm(d: nat, oldsz: nat, newsz: nat) returns (r: nat)
      requires Valid() && IsDir(owner, d) && oldsz <= USER * PAGESIZE
      modifies `mem, `head, `free, `owner
      ensures Valid() && r == (if newsz >= oldsz then oldsz else newsz)
      ensures Cleared(old(mem), old(owner), mem, owner, d, PagesUp(newsz), PagesUp(oldsz))
      ensures newsz >= oldsz ==> mem == old(mem) && head == old(head) && free == old(free) && owner == old(owner)
    {
      ghost var a, b := PagesUp(newsz), PagesUp(oldsz);
      if newsz >= oldsz {
        ClearedStart(mem, owner, d, a, b);
        return oldsz;
      }
      var v := PagesUp(newsz);
      PagesUpBound(oldsz, USER);
      ClearedStart(mem, owner, d, a, Least(v, b));
      while v * PAGESIZE < oldsz
        invariant a <= v && Valid() && IsDir(owner, d)
        invariant Cleared(old(mem), old(owner), mem, owner, d, a, Least(v, b))
      {
        PagesUpBelow(oldsz, v);
        v := ClearPage(old(mem), old(owner), d, a, v, b);
      }
      PagesUpAbove(oldsz, v);
      return newsz;
    }

    /** A fresh frame that holds x at page v.  If only the mapping fails, frame f is left with the kernel. */
    method AddPage(d: nat, v: nat, x: Page, perm: nat) returns (r: Outcome, f: nat)
      requires Valid() && IsDir(owner, d) && v < USER && perm < PAGESIZE
      modifies `mem, `head, `free, `owner
      ensures Valid() && SameData(old(mem), old(owner), mem)
      ensures r.Remap? ==> Present(old(Look(mem, d, v)))
      ensures r.Done? ==> !Present(old(Look(mem, d, v))) && AddsPage(old(mem), old(owner), mem, owner, d, v, f, x, perm)
      ensures r.NoMemory? ==> SameLook(old(mem), old(owner), mem) && free == []
      ensures r.NoMemory? ==> owner == if f == 0 then old(owner) else old(owner)[f := Kernel]
      ensures f != 0 ==> f !in old(owner)
    {
      f := TakeFrame(x);
      if f == 0 { return NoMemory, 0; }
      ghost var m, o := mem, owner;
      r := MapPage(d, v, f, perm);
      if r.Done? {
        AddsPageAfter(old(mem), old(owner), m, o, mem, owner, d, v, f, perm);
      }
    }

    /** allocuvm's way out: unmap what was mapped, and free the frame that could not be mapped. */
    method Undo(ghost m0: seq<Page>, ghost o0: map<nat, Owner>, d: nat, oldsz: nat, newsz: nat, f: nat)
      requires Valid() && Owned(m0, o0) && IsDir(o0, d) && oldsz < newsz <= USER * PAGESIZE
      requires IsDir(owner, d) && (f != 0 ==> f !in o0 && f in owner && owner[f] == Kernel)
      requires SameLook(m0, o0, mem) && SameData(m0, o0, mem) && owner == if f == 0 then o0 else o0[f := Kernel]
      modifies `mem, `head, `free, `owner
      ensures Valid() && Cleared(m0, o0, mem, owner, d, PagesUp(oldsz), PagesUp(newsz))
    {
      ghost var m1, o1 := mem, owner;
      var r := Deallocuvm(d, newsz, oldsz);
      ghost var m2, o2, h := mem, owner, head;
      UndoClear(m0, o0, m1, m2, o2, d, PagesUp(oldsz), PagesUp(newsz), f, Junk(h));
      if f != 0 {
        FillKeeps(mem, owner, f, Junk(head));
        var ok := Kfree(f);
      }
    }

    /** A round of allocuvm's loop, over the state it started with: a page more, the way back when memory runs out, or
        the panic. */
    method GrowPage(ghost m0: seq<Page>, ghost o0: map<nat, Owner>, d: nat, oldsz: nat, newsz: nat, v: nat,
                    ghost images: seq<Image>) returns (r: Outcome)
      requires Valid() && Owned(m0, o0) && IsDir(o0, d) && oldsz < newsz < USER * PAGESIZE
      requires PagesUp(oldsz) <= v < PagesUp(newsz) <= |images|
      requires images[v] == FRESH
      requires Built(m0, o0, mem, owner, d, PagesUp(oldsz), v, images)
      modifies `mem, `head, `free, `owner
      ensures Valid()
      ensures v < USER
      ensures r.Remap? ==> Present(Look(m0, d, v))
      ensures r.Done? ==> !Present(Look(m0, d, v)) && Built(m0, o0, mem, owner, d, PagesUp(oldsz), v + 1, images)
      ensures r.NoMemory? ==> Undone(m0, o0, mem, owner, d, PagesUp(oldsz), PagesUp(newsz))
    {
      PagesUpBound(newsz, USER);
      ghost var m1, o1 := mem, owner;
      assert Look(m1, d, v) == Look(m0, d, v);
      var f;
      r, f := AddPage(d, v, ZEROPAGE, PTE_W + PTE_U);
      if r.Done? {
        BuiltNext(m0, o0, m1, o1, mem, owner, d, PagesUp(oldsz), v, images, f);
      } else if r.NoMemory? {
        Undo(m1, o1, d, oldsz, newsz, f);
        ClearUndoesBuild(m0, o0, m1, o1, mem, owner, d, PagesUp(oldsz), v, PagesUp(newsz), images);
      }
    }

    /** allocuvm: zeroed fresh frames for the pages from oldsz up to newsz.  It panics only on a page mapped already,
        and succeeds only when there is none.  Out of memory it unmaps the whole range: when nothing was mapped there,
        every page of every directory is left as it was, and only page tables of d may have been added. */
    method Allocuvm(d: nat, oldsz: nat, newsz: nat) returns (r: nat, panics: bool, ghost ok: bool)
      requires Valid() && IsDir(owner, d)
      modifies `mem, `head, `free, `owner
      ensures Valid() && (panics ==> !ok)
      ensures !panics ==> r == (if !ok then 0 else if newsz < oldsz then oldsz else newsz)
      ensures newsz >= USER * PAGESIZE ==> !ok
      ensures newsz >= USER * PAGESIZE || newsz < oldsz ==>
                !panics && mem == old(mem) && free == old(free) && owner == old(owner)
      ensures panics ==> !NoneMapped(old(mem), d, PagesUp(oldsz), PagesUp(newsz))
      ensures ok && newsz >= oldsz ==>
                && NoneMapped(old(mem), d, PagesUp(oldsz), PagesUp(newsz))
                && Built(old(mem), old(owner), mem, owner, d, PagesUp(oldsz), PagesUp(newsz),
                         ZeroImages(PagesUp(newsz)))
                && (forall x: nat :: PagesUp(oldsz) <= x < PagesUp(newsz) ==>
                      x < PAGES && BlankPage(mem, Look(mem, d, x)))
      ensures !panics && !ok && newsz < USER * PAGESIZE ==>
                Undone(old(mem), old(owner), mem, owner, d, PagesUp(oldsz), PagesUp(newsz))
    {
      if newsz >= USER * PAGESIZE { return 0, false, false; }
      if newsz < oldsz { return oldsz, false, true; }
      ghost var a, images := PagesUp(oldsz), ZeroImages(PagesUp(newsz));
      PagesUpBound(newsz, USER);
      PagesUpOrder(oldsz, newsz);
      var v := PagesUp(oldsz);
      BuiltNone(mem, owner, d, a, images);
      while v * PAGESIZE < newsz
        invariant a <= v <= PagesUp(newsz) && Valid()
        invariant Built(old(mem), old(owner), mem, owner, d, a, v, images)
        invariant NoneMapped(old(mem), d, a, v)
      {
        PagesUpBelow(newsz, v);
        PagesUpStrict(oldsz, newsz, v);
        var grown := GrowPage(old(mem), old(owner), d, oldsz, newsz, v, images);
        if !grown.Done? {
          MappedWithin(old(mem), d, a, v, PagesUp(newsz));
          return 0, grown.Remap?, false;
        }
        MappedNext(old(mem), d, a, v);
        v := v + 1;
      }
      PagesUpAbove(newsz, v);
      forall x: nat | a <= x < v
        ensures BlankPage(mem, Look(mem, d, x))
      {
        FreshMeans(old(owner), mem, owner, d, x, PagesUp(newsz));
      }
      return newsz, false, true;
    }

    /** The second loop of freevm: free the page tables that the directory names. */
    method FreeTables(d: nat) returns (ok: bool)
      requires Valid() && IsDir(owner, d)
      modifies `mem, `head, `free, `owner
      ensures ok && PoolOk() && owner == NoTables(old(owner), d, ENTRIES) && Kept(old(mem), owner, mem)
    {
      assert OwnerOk(mem, owner, d);
      var i := 0;
      ok := true;
      assert NoTables(owner, d, 0) == owner;
      while i < ENTRIES
        invariant i <= ENTRIES && ok && PoolOk()
        invariant owner == NoTables(old(owner), d, i) && Kept(old(mem), owner, mem)
      {
        assert TableOk(old(mem), old(owner), d, i);
        NoTablesNext(old(mem), old(owner), d, i);
        if Present(mem[d][i]) {
          ok := Kfree(FrameOf(mem[d][i]));
        }
        i := i + 1;
      }
    }

    /** freevm: every frame of directory d, its pages, its tables and itself, goes back to the free list once;
        every other directory maps what it mapped. */
    method Freevm(d: nat) returns (ok: bool)
      requires Valid() && IsDir(owner, d)
      modifies `mem, `head, `free, `owner
      ensures ok && Valid() && owner == Without(old(owner), d)
      ensures SameLook(old(mem), owner, mem) && SameData(old(mem), owner, mem)
      ensures forall f :: f in free <==> f in old(free) || (f in old(owner) && f !in owner)
    {
      PagesUpBound(USER * PAGESIZE, USER);
      var r := Deallocuvm(d, USER * PAGESIZE, 0);
      ghost var m1, o1 := mem, owner;
      ok := FreeTables(d);
      ok := Kfree(d);
      FreevmKeeps(old(mem), old(owner), m1, o1, mem, owner, d);
      FreedNow(lo, old(mem), old(head), old(free), old(owner), mem, head, free, owner);
    }

    /** mappages over kernel pages: range k.virt of directory d maps to k.phys, in order; Remap means that some page of
        the range was mapped already. */
    method Mappages(d: nat, k: Range) returns (r: Outcome)
      requires Valid() && IsDir(owner, d) && k.Ok()
      modifies `mem, `head, `free, `owner
      ensures Valid() && SameData(old(mem), old(owner), mem) && OnlyTables(old(owner), owner, d)
      ensures r.Remap? ==> exists x: nat :: k.Has(x) && Present(old(Look(mem, d, x)))
      ensures r.Done? ==> RangeLook(old(mem), old(owner), mem, d, k, k.n)
      ensures !r.Done? ==> exists n :: 0 <= n < k.n && RangeLook(old(mem), old(owner), mem, d, k, n)
    {
      var a, pa := k.virt, k.phys;
      var last := k.virt + k.n - 1;
      while true
        invariant k.virt <= a <= last && pa == k.phys + (a - k.virt)
        invariant Valid() && SameData(old(mem), old(owner), mem) && OnlyTables(old(owner), owner, d)
        invariant RangeLook(old(mem), old(owner), mem, d, k, a - k.virt)
        decreases last - a
      {
        ghost var m, o := mem, owner;
        r := MapPage(d, a, pa, k.perm);
        if !r.Done? {
          RangeSame(old(mem), old(owner), m, mem, d, k, a - k.virt);
          if r.Remap? {
            assert k.Has(a) && Look(m, d, a) == Look(old(mem), d, a);
          }
          return;
        }
        RangeNext(old(mem), old(owner), m, o, mem, owner, d, k, a - k.virt);
        if a == last { return Done; }
        a, pa := a + 1, pa + 1;
      }
    }

    /** A new directory that maps nothing. */
    method NewDir() returns (d: nat)
      requires Valid()
      modifies `mem, `head, `free, `owner
      ensures Valid() && SameLook(old(mem), old(owner), mem) && SameData(old(mem), old(owner), mem)
      ensures d == 0 ==> owner == old(owner)
      ensures d != 0 ==> d !in old(owner) && owner == old(owner)[d := Directory] && Maps(mem, d, [])
    {
      d := TakeFrame(ZEROPAGE);
      if d != 0 {
        AddDir(mem, owner, d);
        assert owner.Keys == owner[d := Directory].Keys;
        assert old(owner)[d := Directory] == owner[d := Directory];
        owner := owner[d := Directory];
      }
    }

    /** A round of setupkvm's loop: line k of kmap, or freevm when memory runs out. */
    method MapLine(ghost m0: seq<Page>, ghost o0: map<nat, Owner>, d: nat, data: nat, k: nat) returns (ok: bool)
      requires Valid() && EXTMEM < data < PHYSTOP && k < 4 && Making(m0, o0, mem, owner, d)
      requires Maps(mem, d, Kmap(data)[..k])
      modifies `mem, `head, `free, `owner
      ensures Valid()
      ensures ok ==> Making(m0, o0, mem, owner, d) && Maps(mem, d, Kmap(data)[..k + 1])
      ensures !ok ==> owner == o0 && SameLook(m0, o0, mem) && SameData(m0, o0, mem)
    {
      var kmap := Kmap(data);
      KmapOk(data, k);
      ghost var m, o := mem, owner;
      var r := Mappages(d, kmap[k]);
      KmapNext(m0, o0, m, o, mem, owner, d, kmap, k, r);
      ok := r.Done?;
      if !ok {
        ghost var m1, o1 := mem, owner;
        var freed := Freevm(d);
        SetupUndone(m0, o0, m1, o1, mem, owner, d);
      }
    }

    /** setupkvm, where `data` is the frame at which the kernel's data begins: a directory with the mappings of kmap
        and no user page, or 0 with no frame lost. */
    method Setupkvm(data: nat) returns (d: nat)
      requires Valid() && EXTMEM < data < PHYSTOP
      modifies `mem, `head, `free, `owner
      ensures Valid() && SameLook(old(mem), old(owner), mem) && SameData(old(mem), old(owner), mem)
      ensures d == 0 ==> owner == old(owner)
      ensures d != 0 ==> Making(old(mem), old(owner), mem, owner, d) && Maps(mem, d, Kmap(data))
      ensures d != 0 ==> forall x: nat :: x < PAGES ==> KernelPage(Look(mem, d, x), x, data)
    {
      d := NewDir();
      if d == 0 { return; }
      var k := 0;
      while k < 4
        invariant 0 <= k <= 4 && Valid() && Making(old(mem), old(owner), mem, owner, d)
        invariant Maps(mem, d, Kmap(data)[..k])
      {
        var ok := MapLine(old(mem), old(owner), d, data, k);
        if !ok { return 0; }
        k := k + 1;
      }
      assert Kmap(data)[..k] == Kmap(data);
      MapsMeans(mem, d, data, 0);
    }

    /** A round of copyuvm's loop: a copy of page v of directory p at page v of directory d, or the panic when there
        is no such page. */
    method CopyPage(p: nat, d: nat, v: nat) returns (ok: bool, panics: bool, ghost f: nat)
      requires Valid() && IsDir(owner, p) && IsDir(owner, d) && v < USER && !Present(Look(mem, d, v))
      modifies `mem, `head, `free, `owner
      ensures Valid() && (panics <==> !Present(old(Look(mem, p, v)))) && (panics ==> !ok)
      ensures ok ==>
                AddsPage(old(mem), old(owner), mem, owner, d, v, f, PageImage(old(mem), p, v).page,
                         PageImage(old(mem), p, v).perm)
      ensures !ok ==> owner == old(owner) && SameLook(old(mem), old(owner), mem) && SameData(old(mem), old(owner), mem)
    {
      var t := Walk(p, v, false);
      if t == 0 { return false, true, 0; }
      var pte := mem[t][v % ENTRIES];
      if !Present(pte) { return false, true, 0; }
      assert PageOk(mem, owner, p, v);
      assert OwnerOk(mem, owner, FrameOf(pte));
      var r, g := AddPage(d, v, mem[FrameOf(pte)], FlagsOf(pte));
      ok, panics, f := r.Done?, false, g;
      if !ok && g != 0 {
        FillKeeps(mem, owner, g, Junk(head));
        ghost var m, h := mem, head;
        var freed := Kfree(g);
        FreedAgain(old(mem), old(owner), m, g, Junk(h));
      }
    }

    /** copyuvm: a directory whose user pages are copies, on frames nobody held, of the first sz bytes' pages of
        directory p, with the same flags; or 0 with no frame lost.  It panics only when one of those pages is not
        mapped, and succeeds only when all are. */
    method Copyuvm(p: nat, sz: nat, data: nat) returns (d: nat, panics: bool)
      requires Valid() && IsDir(owner, p) && sz <= USER * PAGESIZE && EXTMEM < data < PHYSTOP
      modifies `mem, `head, `free, `owner
      ensures Valid()
      ensures panics ==> !AllMapped(old(mem), p, 0, PagesUp(sz))
      ensures !panics ==> SameLook(old(mem), old(owner), mem) && SameData(old(mem), old(owner), mem)
      ensures !panics && d == 0 ==> owner == old(owner)
      ensures !panics && d != 0 ==>
                && AllMapped(old(mem), p, 0, PagesUp(sz))
                && d !in old(owner) && IsDir(owner, d)
                && (forall x: nat :: x < PagesUp(sz) && x < USER ==>
                      NewPage(old(owner), mem, owner, d, x, PageImage(old(mem), p, x)))
                && (forall x: nat :: x < PagesUp(sz) && x < USER ==>
                      SamePage(mem, Look(mem, d, x), old(mem), Look(old(mem), p, x)))
                && (forall x: nat :: PagesUp(sz) <= x < PAGES ==> KernelPage(Look(mem, d, x), x, data))
    {
      PagesUpBound(sz, USER);
      ghost var m0, o0, n := mem, owner, PagesUp(sz);
      d := Setupkvm(data);
      panics := false;
      if d == 0 { return; }
      ghost var mS, oS := mem, owner;
      ghost var images := seq(n, x requires 0 <= x < n => PageImage(m0, p, x));
      BuiltNone(mem, owner, d, 0, images);
      var v := 0;
      while v * PAGESIZE < sz
        invariant 0 <= v <= n && Valid() && Built(mS, oS, mem, owner, d, 0, v, images)
        invariant AllMapped(m0, p, 0, v)
      {
        PagesUpBelow(sz, v);
        ghost var m1, o1 := mem, owner;
        CopyReady(m0, o0, mS, oS, m1, o1, p, d, v, images, data);
        var ok; ghost var f;
        ok, panics, f := CopyPage(p, d, v);
        MappedWithin(m0, p, 0, v, n);
        if panics { return; }
        MappedNext(m0, p, 0, v);
        if !ok {
          ghost var m2 := mem;
          var freed := Freevm(d);
          CopyUndone(m0, o0, mS, oS, m1, o1, m2, mem, owner, d, v, images);
          return 0, false;
        }
        BuiltNext(mS, oS, m1, o1, mem, owner, d, 0, v, images, f);
        v := v + 1;
      }
      PagesUpAbove(sz, v);
      CopyDone(m0, o0, mS, oS, mem, owner, p, d, n, images, data);
      CopiesMean(m0, o0, mem, owner, p, d, n);
      MapsMeans(mem, d, data, n);
    }

    /** growproc's call of allocuvm. */
    method GrowTo(d: nat, sz: nat, newsz: nat) returns (s: nat)
      requires Valid() && IsDir(owner, d) && sz < newsz && Exactly(mem, d, sz)
      modifies `mem, `head, `free, `owner
      ensures Valid() && IsDir(owner, d) && (s == 0 || s == newsz)
      ensures Exactly(mem, d, if s == 0 then sz else newsz)
    {
      var panics; ghost var ok;
      s, panics, ok := Allocuvm(d, sz, newsz);
      assert !panics;
      if ok {
        GrownExactly(old(mem), old(owner), mem, owner, d, sz, newsz);
      }
    }

    /** growproc's call of deallocuvm. */
    method ShrinkTo(d: nat, sz: nat, newsz: nat) returns (s: nat)
      requires Valid() && IsDir(owner, d) && sz < USER * PAGESIZE && Exactly(mem, d, sz)
      modifies `mem, `head, `free, `owner
      ensures Valid() && IsDir(owner, d) && s == (if newsz < sz then newsz else sz) && Exactly(mem, d, s)
      ensures s == 0 < sz ==> !Exactly(mem, d, sz)
    {
      s := Deallocuvm(d, sz, newsz);
      Shrunk(old(mem), old(owner), mem, owner, d, sz, newsz);
    }

    /** growproc for a process of size sz with directory d; n is its argument.  The process' size and its pages agree
        afterwards exactly unless it has some memory and asks to give up all of it: then the call fails, and the pages
        are gone while the size stays. */
    method Growproc(d: nat, sz: nat, n: int) returns (r: int, sz': nat)
      requires Valid() && IsDir(owner, d) && sz < USER * PAGESIZE && -MAXINT - 1 <= n <= MAXINT
      requires Exactly(mem, d, sz)
      modifies `mem, `head, `free, `owner
      ensures Valid() && IsDir(owner, d) && (r == 0 || r == -1)
      ensures r == 0 && n >= 0 ==> sz' == sz + n
      ensures n < 0 && sz + n < 0 ==> sz' == sz && (r == 0 <==> sz > 0)
      ensures n < 0 <= sz + n ==> (r == 0 <==> sz + n > 0)
      ensures r == 0 && n < 0 <= sz + n ==> sz' == sz + n
      ensures r == -1 ==> sz' == sz
      ensures Exactly(mem, d, sz') <==> sz == 0 || sz + n != 0
      ensures sz + n == 0 ==> Exactly(mem, d, 0)
    {
      sz' := sz;
      if n > 0 {
        sz' := GrowTo(d, sz, (sz + n) % WORD);
        if sz' == 0 { return -1, sz; }
      } else if n < 0 {
        sz' := ShrinkTo(d, sz, (sz + n + WORD) % WORD);
        if sz' == 0 { return -1, sz; }
      }
      r := 0;
    }

    /** A process of one page that calls growproc(-PAGESIZE): the call fails, the size is still a page, and the page is
        gone. */
    method ShrinkToNothing(d: nat) returns (r: int, sz': nat)
      requires Valid() && IsDir(owner, d) && Exactly(mem, d, PAGESIZE)
      modifies `mem, `head, `free, `owner
      ensures Valid() && r == -1 && sz' == PAGESIZE
      ensures old(Present(Look(mem, d, 0))) && Look(mem, d, 0) == 0
    {
      assert PagesUp(PAGESIZE) == 1 && PagesUp(0) == 0 && 0 < USER;
      r, sz' := Growproc(d, PAGESIZE, 0 - PAGESIZE);
    }
  }
}
