/** Allocating blocks, mapping, reading, writing and truncating files: fs.c over the buffers it sees.
    A `panic` is the result None. */
module Fs {
  import opened FsBlocks
  import opened FsLayout
  import opened Numbers
  import opened Params
  import ProcTypes

  type Option<+T> = ProcTypes.Option<T>

  const IPB: nat := 8

  /** A disk block a transaction logs. */
  datatype Logged = MapOf(m: nat) | DataOf(b: nat) | InodeOf(m: nat)

  ghost predicate Full(g: Geometry, bitmap: seq<MapBlock>) {
    forall b :: 0 <= b < g.size ==> Used(bitmap, b)
  }

  ghost predicate UsedBelow(bitmap: seq<MapBlock>, size: nat, n: nat) {
    forall c :: 0 <= c < size && c < n ==> Used(bitmap, c)
  }

  ghost function TableOf(ip: Inode): set<Logged>
    requires |ip.addrs| == NDIRECT + 1
  {
    if ip.addrs[NDIRECT] == 0 then {} else {DataOf(ip.addrs[NDIRECT])}
  }

  /** What writing changes: the blocks, the inodes in memory and the blocks logged. */
  datatype View = View(data: seq<Block>, inodes: seq<Inode>, logged: set<Logged>) {
    ghost predicate Has(i: nat) {
      i < |inodes| && |inodes[i].addrs| == NDIRECT + 1
    }
  }

  /** What of the file system is on the disk. */
  datatype Media = Media(data: seq<Block>, bitmap: seq<MapBlock>, dinodes: seq<Inode>)

  /** Every disk block that differs between a and b is among those logged. */
  ghost predicate Journaled(a: Media, b: Media, logged: set<Logged>) {
    && |a.data| == |b.data| && |a.bitmap| == |b.bitmap| && |a.dinodes| == |b.dinodes|
    && (forall k :: 0 <= k < |a.data| && a.data[k] != b.data[k] ==> DataOf(k) in logged)
    && (forall m :: 0 <= m < |a.bitmap| && a.bitmap[m] != b.bitmap[m] ==> MapOf(m) in logged)
    && (forall i :: 0 <= i < |a.dinodes| && a.dinodes[i] != b.dinodes[i] ==> InodeOf(i / IPB) in logged)
  }

  lemma JournalTrans(a: Media, b: Media, c: Media, l: set<Logged>, l': set<Logged>)
    requires Journaled(a, b, l) && Journaled(b, c, l') && l <= l'
    ensures Journaled(a, c, l')
  {
  }

  /** s is stored at off in file i, other files are as they were. */
  ghost predicate Stores(v: View, w: View, i: nat, off: nat, s: seq<Byte>) {
    && v.Has(i) && w.Has(i) && |w.inodes| == |v.inodes|
    && Written(v.data, v.inodes[i], w.data, w.inodes[i], off, s)
    && (forall j :: 0 <= j < |v.inodes| && j != i ==>
          w.inodes[j] == v.inodes[j] && SameBytes(v.data, v.inodes[j], w.data, w.inodes[j]))
  }

  /** The blocks logged: some of the free map, some of the file, and its indirect block. */
  ghost predicate Logs(v: View, w: View, i: nat, maps: set<Logged>, blocks: set<Logged>) {
    && v.Has(i) && w.Has(i)
    && w.logged <= v.logged + maps + blocks + TableOf(w.inodes[i])
    && TableOf(v.inodes[i]) <= TableOf(w.inodes[i])
  }

  /** One round of writei's loop. */
  ghost predicate Round(v: View, w: View, i: nat, off: nat, s: seq<Byte>, maps: set<Logged>, a: nat) {
    && off < MAXBYTES && Stores(v, w, i, off, s) && Logs(v, w, i, maps, {DataOf(a)})
    && (Mapped(v.data, v.inodes[i], off) ==> w.inodes == v.inodes)
    && |maps| <= (if Mapped(v.data, v.inodes[i], off) then 0 else 1)
                 + |TableOf(w.inodes[i])| - |TableOf(v.inodes[i])|
  }

  /** The first c rounds of writei's loop store s at off, in a write that ends at `end`. */
  ghost predicate Rounds(v: View, w: View, i: nat, off: nat, s: seq<Byte>, end: nat, c: nat, maps: set<Logged>,
                         blocks: set<Logged>) {
    && Stores(v, w, i, off, s) && Logs(v, w, i, maps, blocks)
    && (end <= v.inodes[i].size ==> w.inodes == v.inodes)
    && (c == 0 ==> s == [])
    && |blocks| <= c
    && |maps| + |TableOf(v.inodes[i])| <= c - (if c > 0 && off % BSIZE != 0 then 1 else 0) + |TableOf(w.inodes[i])|
  }

  lemma StoresTrans(u: View, v: View, w: View, i: nat, off: nat, s: seq<Byte>, t: seq<Byte>)
    requires Stores(u, v, i, off, s) && Stores(v, w, i, off + |s|, t)
    ensures Stores(u, w, i, off, s + t)
  {
    WrittenTrans(u.data, u.inodes[i], v.data, v.inodes[i], w.data, w.inodes[i], off, s, t);
    forall j | 0 <= j < |u.inodes| && j != i
      ensures SameBytes(u.data, u.inodes[j], w.data, w.inodes[j])
    {
      SameTrans(u.data, u.inodes[j], v.data, v.inodes[j], w.data, w.inodes[j]);
    }
  }

  /** A round that starts inside the old file, or inside a block that the old file reaches, allocates nothing. */
  lemma RoundMapped(u: View, v: View, i: nat, off: nat, s: seq<Byte>, end: nat)
    requires Stores(u, v, i, off, s) && FileOk(u.data, u.inodes[i])
    requires off <= u.inodes[i].size && off + |s| < end <= MAXBYTES
    ensures end <= u.inodes[i].size || (s == [] && off % BSIZE != 0) ==> Mapped(v.data, v.inodes[i], off + |s|)
  {
    if end <= u.inodes[i].size {
      assert WrittenByte(u.data, u.inodes[i], v.data, v.inodes[i], off, s, off + |s|);
    } else if s == [] && off % BSIZE != 0 {
      assert WrittenByte(u.data, u.inodes[i], v.data, v.inodes[i], off, s, off - 1);
      assert (off - 1) / BSIZE == off / BSIZE;
    }
  }

  lemma RoundsStart(v: View, i: nat, off: nat, end: nat)
    requires v.Has(i) && forall j :: 0 <= j < |v.inodes| ==> |v.inodes[j].addrs| == NDIRECT + 1
    ensures Rounds(v, v, i, off, [], end, 0, {}, {})
  {
    assert Written(v.data, v.inodes[i], v.data, v.inodes[i], off, []);
  }

  lemma LogsTrans(u: View, v: View, w: View, i: nat, maps: set<Logged>, blocks: set<Logged>, ms: set<Logged>, x: Logged)
    requires Logs(u, v, i, maps, blocks) && Logs(v, w, i, ms, {x})
    ensures Logs(u, w, i, maps + ms, blocks + {x})
    ensures |maps + ms| <= |maps| + |ms| && |blocks + {x}| <= |blocks| + 1
  {
    assert |maps + ms| + |maps * ms| == |maps| + |ms|;
  }

  lemma RoundsNext(u: View, v: View, w: View, i: nat, off: nat, s: seq<Byte>, t: seq<Byte>, end: nat, c: nat,
                   maps: set<Logged>, blocks: set<Logged>, ms: set<Logged>, a: nat)
    requires Rounds(u, v, i, off, s, end, c, maps, blocks) && Round(v, w, i, off + |s|, t, ms, a)
    requires FileOk(u.data, u.inodes[i]) && off <= u.inodes[i].size && off + |s| + |t| <= end <= MAXBYTES
    requires 0 < |t|
    ensures Rounds(u, w, i, off, s + t, end, c + 1, maps + ms, blocks + {DataOf(a)})
  {
    StoresTrans(u, v, w, i, off, s, t);
    LogsTrans(u, v, w, i, maps, blocks, ms, DataOf(a));
    RoundMapped(u, v, i, off, s, end);
  }

  /** Storing s at off through the block that bmap found. */
  lemma PatchStores(g: Geometry, u: View, d: seq<Block>, w: View, bitmap: seq<MapBlock>, owner: map<nat, Ref>,
                    i: nat, off: nat, s: seq<Byte>)
    requires Consistent(g, d, w.inodes, bitmap, owner)
    requires i < |w.inodes| == |u.inodes| && off + |s| <= MAXBYTES && 0 < |s| <= BSIZE - off % BSIZE
    requires forall j :: 0 <= j < |w.inodes| ==> SameBytes(u.data, u.inodes[j], d, w.inodes[j])
    requires forall j :: 0 <= j < |w.inodes| && j != i ==> u.inodes[j] == w.inodes[j]
    requires var a := At(d, w.inodes, i, off / BSIZE);
             0 < a < |d| && w.data == d[a := Patch(d[a], off % BSIZE, s)]
    ensures Stores(u, w, i, off, s)
  {
    forall j, k | 0 <= j < |w.inodes| && 0 <= k < MAXBYTES
      ensures if j == i then WrittenByte(u.data, u.inodes[j], w.data, w.inodes[j], off, s, k)
              else SameByte(u.data, u.inodes[j], w.data, w.inodes[j], k)
    {
      assert SameBytes(u.data, u.inodes[j], d, w.inodes[j]);
      assert SameByte(u.data, u.inodes[j], d, w.inodes[j], k);
      StoreByte(g, d, w.inodes, bitmap, owner, i, off / BSIZE, off % BSIZE, s, j, k);
      InBlock(off, |s|, k);
    }
  }

  /** After c rounds that stored tot of n bytes, the first of them o into its block: rounds after the first start at a
      block boundary. */
  predicate Lap(o: nat, n: nat, tot: nat, c: nat) {
    && tot <= n && (tot == 0 ==> c == 0) && (0 < tot < n ==> o + tot == c * BSIZE)
    && c * BSIZE < o + tot + BSIZE
  }

  lemma NextLap(off: nat, n: nat, tot: nat, c: nat, m: nat)
    requires Lap(off % BSIZE, n, tot, c) && tot < n
    requires 0 < m <= n - tot && m <= BSIZE - (off + tot) % BSIZE
    requires m < n - tot ==> m == BSIZE - (off + tot) % BSIZE
    ensures Lap(off % BSIZE, n, tot + m, c + 1)
  {
    if tot > 0 {
      assert (off + tot) % BSIZE == 0;
    }
  }

  ghost predicate Shows(data: seq<Block>, inodes: seq<Inode>, files: seq<seq<Byte>>) {
    && |files| == |inodes|
    && forall i :: 0 <= i < |inodes| ==> FileOk(data, inodes[i]) && Contents(data, inodes[i]) == files[i]
  }

  class FileSystem {
    const g: Geometry
    var bitmap: seq<MapBlock>
    var data: seq<Block>
    var inodes: seq<Inode>
    /** What `iupdate` last wrote of each inode. */
    var dinodes: seq<Inode>
    ghost var owner: map<nat, Ref>
    /** The contents of every file. */
    ghost var files: seq<seq<Byte>>
    ghost var logged: set<Logged>

    ghost predicate Whole()
      reads this
    {
      Consistent(g, data, inodes, bitmap, owner)
    }

    ghost predicate Valid()
      reads this
    {
      && Whole()
      && dinodes == inodes
      && Shows(data, inodes, files)
    }

    ghost function OnDisk(): Media
      reads this
    {
      Media(data, bitmap, dinodes)
    }

    /** Whatever has changed on the disk has been logged. */
    twostate predicate Journals()
      reads this
    {
      old(logged) <= logged && Journaled(old(OnDisk()), OnDisk(), logged)
    }

    ghost function Now(): View
      reads this
    {
      View(data, inodes, logged)
    }

    /** A file system without blocks in use beyond its metadata. */
    constructor (g: Geometry, bitmap: seq<MapBlock>, data: seq<Block>, ninodes: nat)
      requires 0 < g.meta <= g.size <= |bitmap| * BPB && g.size < WORD && |data| == g.size
      requires forall b :: 0 <= b < g.size ==> (Used(bitmap, b) <==> b < g.meta)
      ensures Valid() && this.g == g && this.bitmap == bitmap && this.data == data
      ensures |files| == ninodes && forall i :: 0 <= i < ninodes ==> files[i] == []
    {
      this.g, this.bitmap, this.data := g, bitmap, data;
      inodes, dinodes := seq(ninodes, _ => EMPTY), seq(ninodes, _ => EMPTY);
      owner, files, logged := map[], seq(ninodes, _ => []), {};
    }

    /** balloc's writes: block b + bi is marked in use and zeroed. */
    method Claim(b: nat, bi: nat)
      requires b % BPB == 0 && bi < BPB && b + bi < g.size <= |bitmap| * BPB && |data| == g.size
      requires !Used(bitmap, b + bi)
      modifies `bitmap, `data, `logged
      ensures bitmap == SetUsed(old(bitmap), b + bi) && data == old(data)[b + bi := ZERO]
      ensures logged == old(logged) + {MapOf((b + bi) / BPB), DataOf(b + bi)}
    {
      MapPlace(bitmap, b, bi);
      var bp := bitmap[b / BPB];
      bitmap := bitmap[b / BPB := bp[bi / 8 := bp[bi / 8] | Mask(bi)]];
      logged := logged + {MapOf(b / BPB)};
      data := data[b + bi := ZERO];
      logged := logged + {DataOf(b + bi)};
    }

    /** balloc: the lowest free block, marked in use and zeroed. */
    method Balloc() returns (r: Option<nat>)
      requires g.size <= |bitmap| * BPB && |data| == g.size
      modifies `bitmap, `data, `logged
      ensures r.None? ==> Full(g, bitmap) && bitmap == old(bitmap) && data == old(data) && logged == old(logged)
      ensures r.Some? ==>
                && r.value < g.size && !Used(old(bitmap), r.value)
                && (forall c :: 0 <= c < r.value ==> Used(old(bitmap), c))
                && bitmap == SetUsed(old(bitmap), r.value)
                && data == old(data)[r.value := ZERO]
                && logged == old(logged) + {MapOf(r.value / BPB), DataOf(r.value)}
    {
      var b := 0;
      while b < g.size
        invariant b % BPB == 0
        invariant UsedBelow(bitmap, g.size, b)
        invariant bitmap == old(bitmap) && data == old(data) && logged == old(logged)
      {
        var bi := ScanMap(b);
        if bi < BPB && b + bi < g.size {
          Claim(b, bi);
          return ProcTypes.Some(b + bi);
        }
        b := b + BPB;
      }
      return ProcTypes.None;
    }

    /** The inner loop of balloc: the first clear bit of one block of the free map. */
    method ScanMap(b: nat) returns (bi: nat)
      requires b % BPB == 0 && b < g.size <= |bitmap| * BPB && UsedBelow(bitmap, g.size, b)
      ensures bi <= BPB && UsedBelow(bitmap, g.size, b + bi)
      ensures bi < BPB && b + bi < g.size ==> !Used(bitmap, b + bi)
    {
      bi := 0;
      while bi < BPB && b + bi < g.size
        invariant bi <= BPB && UsedBelow(bitmap, g.size, b + bi)
      {
        MapPlace(bitmap, b, bi);
        var m := Mask(bi);
        if bitmap[b / BPB][bi / 8] & m == 0 {
          return;
        }
        bi := bi + 1;
      }
    }

    /** bfree: panics exactly when the block is free already. */
    method Bfree(b: nat) returns (ok: bool)
      requires b / BPB < |bitmap|
      modifies `bitmap, `logged
      ensures ok <==> Used(old(bitmap), b)
      ensures ok ==> bitmap == SetFree(old(bitmap), b) && logged == old(logged) + {MapOf(b / BPB)}
      ensures !ok ==> bitmap == old(bitmap) && logged == old(logged)
    {
      var bi := b % BPB;
      var m := Mask(bi);
      var bp := bitmap[b / BPB];
      if bp[bi / 8] & m == 0 {
        return false;
      }
      bitmap := bitmap[b / BPB := bp[bi / 8 := bp[bi / 8] & !m]];
      logged := logged + {MapOf(b / BPB)};
      return true;
    }

    /** A step of bmap: a fresh block for address k of inode i, the indirect block when k == NDIRECT. */
    method FillAddr(i: nat, k: nat) returns (r: Option<nat>)
      requires Whole() && i < |inodes| && k <= NDIRECT && inodes[i].addrs[k] == 0
      modifies `bitmap, `data, `inodes, `owner, `logged
      ensures r.None? ==> Full(g, bitmap)
      ensures r.Some? ==>
                && Whole() && Journals() && 0 < r.value < g.size && data[r.value] == ZERO
                && inodes == SetAddr(old(inodes), i, k, r.value)
                && logged == old(logged) + {MapOf(r.value / BPB), DataOf(r.value)}
                && forall j :: 0 <= j < |inodes| ==> SameBytes(old(data), old(inodes)[j], data, inodes[j])
    {
      r := Balloc();
      if r.None? { return; }
      var b := r.value;
      inodes := SetAddr(inodes, i, k, b);
      owner := owner[b := Ref(i, if k == NDIRECT then TABLE else k)];
      assert BlockOk(g, old(data), old(inodes), old(bitmap), old(owner), b);
      AttachAddr(g, old(data), old(inodes), old(bitmap), old(owner), i, k, b);
      AttachKeeps(g, old(data), old(inodes), old(bitmap), old(owner), data, inodes, i,
                  if k == NDIRECT then TABLE else k, b);
      forall j | 0 <= j < |inodes|
        ensures SameBytes(old(data), old(inodes)[j], data, inodes[j])
      {
        AttachSame(g, old(data), old(inodes), old(bitmap), old(owner), data, inodes, i,
                   if k == NDIRECT then TABLE else k, b, j);
      }
    }

    /** A step of bmap: a fresh block for entry r0 of the indirect block of inode i. */
    method FillWord(i: nat, r0: nat) returns (r: Option<nat>)
      requires Whole() && i < |inodes| && NDIRECT <= r0 < MAXFILE
      requires inodes[i].addrs[NDIRECT] != 0 && At(data, inodes, i, r0) == 0
      modifies `bitmap, `data, `owner, `logged
      ensures r.None? ==> Full(g, bitmap)
      ensures r.Some? ==>
                && Whole() && Journals() && 0 < r.value < g.size && data[r.value] == ZERO
                && At(data, inodes, i, r0) == r.value
                && logged == old(logged) + {MapOf(r.value / BPB), DataOf(r.value), DataOf(inodes[i].addrs[NDIRECT])}
                && forall j :: 0 <= j < |inodes| ==> SameBytes(old(data), inodes[j], data, inodes[j])
    {
      var t := inodes[i].addrs[NDIRECT];
      assert RefOk(g, data, inodes, owner, i, TABLE);
      r := Balloc();
      if r.None? { return; }
      var b := r.value;
      assert BlockOk(g, old(data), inodes, old(bitmap), old(owner), b);
      assert BlockOk(g, old(data), inodes, old(bitmap), old(owner), t);
      data := data[t := SetWord(data[t], r0 - NDIRECT, b)];
      logged := logged + {DataOf(t)};
      owner := owner[b := Ref(i, r0)];
      AttachWord(g, old(data), inodes, old(bitmap), old(owner), i, r0, t, b);
      AttachKeeps(g, old(data), inodes, old(bitmap), old(owner), data, inodes, i, r0, b);
      assert IsRef(inodes, i, r0);
      forall j | 0 <= j < |inodes|
        ensures SameBytes(old(data), inodes[j], data, inodes[j])
      {
        AttachSame(g, old(data), inodes, old(bitmap), old(owner), data, inodes, i, r0, b, j);
      }
    }

    /** What bmap promises about block bn of inode i, over the state it found and the maps it changed. */
    twostate predicate Maps(i: nat, bn: nat, addr: nat, maps: set<Logged>)
      requires old(Whole()) && i < old(|inodes|) && bn < MAXFILE
      reads this
    {
      && Whole() && Journals() && |inodes| == old(|inodes|)
      && 0 < addr < g.size && At(data, inodes, i, bn) == addr
      && (forall j :: 0 <= j < |inodes| ==> SameBytes(old(data), old(inodes)[j], data, inodes[j]))
      && (forall j :: 0 <= j < |inodes| && j != i ==> inodes[j] == old(inodes)[j])
      && (if old(At(data, inodes, i, bn)) != 0
          then bitmap == old(bitmap) && data == old(data) && inodes == old(inodes) && logged == old(logged)
               && owner == old(owner)
          else data[addr] == ZERO)
      && logged <= old(logged) + maps + {DataOf(addr)} + TableOf(inodes[i])
      && TableOf(old(inodes)[i]) <= TableOf(inodes[i])
      && |maps| <= (if old(At(data, inodes, i, bn)) == 0 then 1 else 0)
                   + |TableOf(inodes[i])| - |TableOf(old(inodes)[i])|
    }

    /** The first step of bmap for an entry of the indirect block: allocate that block if need be. */
    method BmapTable(i: nat, bn: nat) returns (ok: bool, ghost maps: set<Logged>)
      requires Whole() && i < |inodes| && NDIRECT <= bn < MAXFILE
      modifies `bitmap, `data, `inodes, `owner, `logged
      ensures !ok ==> old(At(data, inodes, i, bn)) == 0 && Full(g, bitmap)
      ensures ok ==>
                && Whole() && Journals() && |inodes| == old(|inodes|) && inodes[i].addrs[NDIRECT] != 0
                && At(data, inodes, i, bn) == old(At(data, inodes, i, bn))
                && (forall j :: 0 <= j < |inodes| ==> SameBytes(old(data), old(inodes)[j], data, inodes[j]))
                && (forall j :: 0 <= j < |inodes| && j != i ==> inodes[j] == old(inodes)[j])
                && (old(At(data, inodes, i, bn)) != 0 ==>
                      bitmap == old(bitmap) && data == old(data) && inodes == old(inodes) && logged == old(logged)
                      && owner == old(owner))
                && logged <= old(logged) + maps + TableOf(inodes[i])
                && TableOf(old(inodes)[i]) <= TableOf(inodes[i])
                && |maps| <= |TableOf(inodes[i])| - |TableOf(old(inodes)[i])|
    {
      maps := {};
      assert RefOk(g, data, inodes, owner, i, bn);
      if inodes[i].addrs[NDIRECT] == 0 {
        var r := FillAddr(i, NDIRECT);
        if r.None? { return false, maps; }
        maps := {MapOf(r.value / BPB)};
        ZeroWord(bn - NDIRECT);
      }
      ok := true;
    }

    /** bmap for an entry of the indirect block. */
    method BmapIndirect(i: nat, bn: nat) returns (r: Option<nat>, ghost maps: set<Logged>)
      requires Whole() && i < |inodes| && NDIRECT <= bn < MAXFILE
      modifies `bitmap, `data, `inodes, `owner, `logged
      ensures r.None? ==> old(At(data, inodes, i, bn)) == 0 && Full(g, bitmap)
      ensures r.Some? ==> Maps(i, bn, r.value, maps)
    {
      var ok;
      ok, maps := BmapTable(i, bn);
      if !ok { return ProcTypes.None, maps; }
      ghost var d, p, disk, l := data, inodes, OnDisk(), logged;
      assert RefOk(g, data, inodes, owner, i, TABLE) && RefOk(g, data, inodes, owner, i, bn);
      var addr := Word(data[inodes[i].addrs[NDIRECT]], bn - NDIRECT);
      if addr == 0 {
        r := FillWord(i, bn);
        if r.None? { return; }
        maps := maps + {MapOf(r.value / BPB)};
        JournalTrans(old(OnDisk()), disk, OnDisk(), l, logged);
        forall j | 0 <= j < |inodes|
          ensures SameBytes(old(data), old(inodes)[j], data, inodes[j])
        {
          SameTrans(old(data), old(inodes)[j], d, p[j], data, inodes[j]);
        }
        return;
      }
      return ProcTypes.Some(addr), maps;
    }

    /** bmap: the block that holds block bn of inode i, allocated if need be. */
    method Bmap(i: nat, bn: nat) returns (r: Option<nat>, ghost maps: set<Logged>)
      requires Whole() && i < |inodes|
      modifies `bitmap, `data, `inodes, `owner, `logged
      ensures r.None? ==> bn >= MAXFILE || (old(At(data, inodes, i, bn)) == 0 && Full(g, bitmap))
      ensures r.Some? ==> bn < MAXFILE && Maps(i, bn, r.value, maps)
    {
      maps := {};
      if bn < NDIRECT {
        assert RefOk(g, data, inodes, owner, i, bn);
        if inodes[i].addrs[bn] == 0 {
          r := FillAddr(i, bn);
          if r.Some? { maps := {MapOf(r.value / BPB)}; }
          return;
        }
        return ProcTypes.Some(inodes[i].addrs[bn]), maps;
      }
      if bn < MAXFILE {
        r, maps := BmapIndirect(i, bn);
        return;
      }
      return ProcTypes.None, maps;
    }

    /** One round of writei's loop: bmap, memmove into the buffer, log_write. */
    method WriteBlock(i: nat, off: nat, s: seq<Byte>) returns (ok: bool, ghost maps: set<Logged>, ghost a: nat)
      requires Whole() && i < |inodes|
      requires off + |s| <= MAXBYTES && 0 < |s| <= BSIZE - off % BSIZE
      modifies `bitmap, `data, `inodes, `owner, `logged
      ensures !ok ==> Full(g, bitmap)
      ensures ok ==> Whole() && Journals() && Round(old(Now()), Now(), i, off, s, maps, a)
    {
      var bn, o := off / BSIZE, off % BSIZE;
      assert RefOk(g, data, inodes, owner, i, bn);
      var r;
      r, maps := Bmap(i, bn);
      if r.None? { return false, maps, 0; }
      a := r.value;
      ghost var d := data;
      data := data[r.value := Patch(data[r.value], o, s)];
      logged := logged + {DataOf(r.value)};
      ok := true;
      StoreKeeps(g, d, inodes, bitmap, owner, i, bn, Patch(d[a], o, s));
      PatchStores(g, old(Now()), d, Now(), bitmap, owner, i, off, s);
    }

    /** The loop of writei has stored tot bytes of src in c rounds from the state u, with disk on the disk. */
    ghost predicate Going(u: View, disk: Media, i: nat, src: seq<Byte>, off: nat, tot: nat, c: nat,
                          maps: set<Logged>, blocks: set<Logged>)
      reads this
    {
      && Lap(off % BSIZE, |src|, tot, c)
      && Whole() && u.logged <= logged && Journaled(disk, OnDisk(), logged)
      && Rounds(u, Now(), i, off, src[..tot], off + |src|, c, maps, blocks)
    }

    /** A round of the loop of writei. */
    method NextRound(ghost u: View, ghost disk: Media, i: nat, src: seq<Byte>, off: nat, tot: nat,
                     ghost c: nat, ghost maps: set<Logged>, ghost blocks: set<Logged>)
        returns (ok: bool, tot': nat, ghost maps': set<Logged>, ghost blocks': set<Logged>)
      requires tot < |src| && Going(u, disk, i, src, off, tot, c, maps, blocks)
      requires FileOk(u.data, u.inodes[i]) && off <= u.inodes[i].size && off + |src| <= MAXBYTES
      modifies `bitmap, `data, `inodes, `owner, `logged
      ensures !ok ==> Full(g, bitmap)
      ensures ok ==> tot < tot' <= |src| && Going(u, disk, i, src, off, tot', c + 1, maps', blocks')
    {
      var n, at := |src|, off + tot;
      var m := if n - tot < BSIZE - at % BSIZE then n - tot else BSIZE - at % BSIZE;
      ghost var v := Now();
      ghost var ms, a;
      ok, ms, a := WriteBlock(i, at, src[tot..tot + m]);
      tot', maps', blocks' := tot + m, maps + ms, blocks + {DataOf(a)};
      if !ok { return; }
      JournalTrans(disk, old(OnDisk()), OnDisk(), old(logged), logged);
      RoundsNext(u, v, Now(), i, off, src[..tot], src[tot..tot + m], off + n, c, maps, blocks, ms, a);
      assert src[..tot] + src[tot..tot + m] == src[..tot + m];
      NextLap(off, n, tot, c, m);
    }

    /** The loop of writei, in c rounds. */
    method WriteBlocks(i: nat, src: seq<Byte>, off: nat)
        returns (ok: bool, ghost c: nat, ghost maps: set<Logged>, ghost blocks: set<Logged>)
      requires Whole() && i < |inodes| && FileOk(data, inodes[i]) && off <= inodes[i].size && off + |src| <= MAXBYTES
      modifies `bitmap, `data, `inodes, `owner, `logged
      ensures !ok ==> Full(g, bitmap)
      ensures ok ==> Going(old(Now()), old(OnDisk()), i, src, off, |src|, c, maps, blocks)
    {
      var tot := 0;
      c, maps, blocks := 0, {}, {};
      RoundsStart(Now(), i, off, off + |src|);
      ghost var u, disk := Now(), OnDisk();
      while tot < |src|
        invariant Going(u, disk, i, src, off, tot, c, maps, blocks)
      {
        ok, tot, maps, blocks := NextRound(u, disk, i, src, off, tot, c, maps, blocks);
        if !ok { return; }
        c := c + 1;
      }
      ok := true;
    }

    /** writei once its arguments are found good. */
    method WriteFitting(i: nat, src: seq<Byte>, off: nat) returns (ok: bool)
      requires Valid() && i < |inodes| && Fits(inodes[i].size, off, |src|)
      modifies `bitmap, `data, `inodes, `dinodes, `owner, `files, `logged
      ensures !ok ==> Full(g, bitmap)
      ensures ok ==> Valid() && Journals() && files == old(files)[i := Overwrite(old(files)[i], off, src)]
      ensures ok && |src| <= CHUNK ==> |logged - old(logged)| <= MAXOPBLOCKS
    {
      ghost var c, maps, blocks;
      ok, c, maps, blocks := WriteBlocks(i, src, off);
      if !ok { return; }
      ghost var w := Now();
      if |src| > 0 && off + |src| > inodes[i].size {
        inodes := inodes[i := inodes[i].(size := off + |src|)];
        dinodes := dinodes[i := inodes[i]];
        logged := logged + {InodeOf(i / IPB)};
      }
      assert src[..|src|] == src;
      RoundsContents(old(Now()), w, files, i, off, src, inodes);
      SameAddrs(g, data, w.inodes, inodes, bitmap, owner);
      files := files[i := Overwrite(files[i], off, src)];
      if |src| <= CHUNK {
        LogBound(logged - old(logged), maps, blocks, TableOf(w.inodes[i]), InodeOf(i / IPB), off % BSIZE, |src|, c);
      }
    }

    /** writei on a file: Some(-1) leaves everything as it was; otherwise the file is overwritten or extended,
        no other file changes, and `iupdate` has recorded every inode that changed. */
    method Writei(i: nat, src: seq<Byte>, off: nat) returns (r: Option<int>)
      requires Valid() && i < |inodes| && off < WORD && |src| < WORD
      modifies `bitmap, `data, `inodes, `dinodes, `owner, `files, `logged
      ensures r.None? ==> Full(g, bitmap)
      ensures r == ProcTypes.Some(-1) <==> !Fits(old(inodes)[i].size, off, |src|)
      ensures r == ProcTypes.Some(-1) ==>
                bitmap == old(bitmap) && data == old(data) && inodes == old(inodes) && dinodes == old(dinodes)
                && owner == old(owner) && files == old(files) && logged == old(logged)
      ensures r.Some? && r.value != -1 ==>
                && r.value == |src| && Valid() && Journals()
                && files == old(files)[i := Overwrite(old(files)[i], off, src)]
      ensures r == ProcTypes.Some(-1) <==> off > |old(files)[i]| || off + |src| > 140 * 512
      ensures r.Some? && r.value != -1 ==>
                var was, now, end := old(files)[i], files[i], off + |src|;
                && |files| == |old(files)| && (forall j :: 0 <= j < |files| && j != i ==> files[j] == old(files)[j])
                && |now| == (if end < |was| then |was| else end)
                && now[..off] == was[..off] && now[off..end] == src && (end < |was| ==> now[end..] == was[end..])
      ensures |src| <= CHUNK && r.Some? ==> |logged - old(logged)| <= MAXOPBLOCKS
    {
      var n := |src|;
      if off > inodes[i].size || (off + n) % WORD < off {
        return ProcTypes.Some(-1);
      }
      if off + n > MAXBYTES {
        return ProcTypes.Some(-1);
      }
      OverwriteMeans(files[i], off, src);
      var ok := WriteFitting(i, src, off);
      r := if ok then ProcTypes.Some(n) else ProcTypes.None;
    }

    /** A round of readi's loop: the file's bytes from `at` to the end of their block. */
    method ReadRound(i: nat, at: nat, left: nat) returns (s: seq<Byte>)
      requires Valid() && i < |inodes| && left > 0 && at + left <= inodes[i].size
      modifies `bitmap, `data, `inodes, `owner, `logged
      ensures bitmap == old(bitmap) && Now() == old(Now()) && owner == old(owner)
      ensures 0 < |s| <= left && s == files[i][at..at + |s|]
    {
      assert Mapped(data, inodes[i], at);
      var addr; ghost var maps;
      addr, maps := Bmap(i, at / BSIZE);
      var m := if left < BSIZE - at % BSIZE then left else BSIZE - at % BSIZE;
      ReadBlock(data, inodes[i], at, m);
      s := data[addr.value][at % BSIZE..at % BSIZE + m];
    }

    /** readi on a file: the bytes of the file from off, as many as n asks for and the file has.
        It reads through bmap and yet changes nothing. */
    method Readi(i: nat, off: nat, n: nat) returns (r: int, dst: seq<Byte>)
      requires Valid() && i < |inodes| && off < WORD && n < WORD
      modifies `bitmap, `data, `inodes, `owner, `logged
      ensures bitmap == old(bitmap) && Now() == old(Now()) && owner == old(owner)
      ensures r == -1 <==> off > inodes[i].size || off + n >= WORD
      ensures r != -1 ==> r == |dst| && dst == files[i][off..Capped(off, n, inodes[i].size)]
      ensures r != -1 ==> r == if off + n > |files[i]| then |files[i]| - off else n
    {
      if off > inodes[i].size || (off + n) % WORD < off {
        return -1, [];
      }
      var m := if off + n > inodes[i].size then inodes[i].size - off else n;
      dst := [];
      ghost var f := files[i];
      while |dst| < m
        invariant |dst| <= m
        invariant bitmap == old(bitmap) && Now() == old(Now()) && owner == old(owner)
        invariant dst == f[off..off + |dst|]
      {
        var at := off + |dst|;
        var s := ReadRound(i, at, m - |dst|);
        SliceJoin(f, off, at, at + |s|);
        dst := dst + s;
      }
      r := m;
    }

    /** A round of the first loop of itrunc, over the inodes p and the free map bits that it started with. */
    method FreeAddr(ghost p: seq<Inode>, ghost bits: seq<MapBlock>, i: nat, k: nat) returns (ok: bool)
      requires Consistent(g, data, p, bits, owner) && i < |p| && k < NDIRECT
      requires Freed(g, bits, bitmap, owner, i, k) && inodes == p[i := Cleared(p[i], k)]
      modifies `bitmap, `inodes, `logged
      ensures ok && Journals() && Freed(g, bits, bitmap, owner, i, k + 1) && inodes == p[i := Cleared(p[i], k + 1)]
    {
      FreeNext(g, data, p, bits, bitmap, owner, i, k);
      ClearedNext(p[i], k);
      ok := true;
      if inodes[i].addrs[k] != 0 {
        ok := Bfree(inodes[i].addrs[k]);
        inodes := SetAddr(inodes, i, k, 0);
      }
    }

    /** The first loop of itrunc: free and clear the direct addresses. */
    method FreeDirect(i: nat) returns (ok: bool)
      requires Whole() && i < |inodes|
      modifies `bitmap, `inodes, `logged
      ensures ok && Journals() && Freed(g, old(bitmap), bitmap, owner, i, NDIRECT)
      ensures inodes == old(inodes)[i := Cleared(old(inodes)[i], NDIRECT)]
    {
      var k := 0;
      ok := true;
      ClearedNext(inodes[i], 0);
      while k < NDIRECT
        invariant k <= NDIRECT && ok && Journals()
        invariant Freed(g, old(bitmap), bitmap, owner, i, k)
        invariant inodes == old(inodes)[i := Cleared(old(inodes)[i], k)]
      {
        ghost var disk, l := OnDisk(), logged;
        ok := FreeAddr(old(inodes), old(bitmap), i, k);
        JournalTrans(old(OnDisk()), disk, OnDisk(), l, logged);
        k := k + 1;
      }
    }

    /** The second loop of itrunc: free what the indirect block names. */
    method FreeIndirect(ghost p: seq<Inode>, ghost bits: seq<MapBlock>, i: nat) returns (ok: bool)
      requires Consistent(g, data, p, bits, owner) && i < |p| == |inodes| && |inodes[i].addrs| == NDIRECT + 1
      requires inodes[i].addrs[NDIRECT] == p[i].addrs[NDIRECT] != 0 && Freed(g, bits, bitmap, owner, i, NDIRECT)
      modifies `bitmap, `logged
      ensures ok && Journals() && Freed(g, bits, bitmap, owner, i, TABLE)
    {
      assert RefOk(g, data, p, owner, i, TABLE);
      var bp := data[inodes[i].addrs[NDIRECT]];
      var j := 0;
      ok := true;
      while j < NINDIRECT
        invariant j <= NINDIRECT && ok && Journals()
        invariant Freed(g, bits, bitmap, owner, i, NDIRECT + j)
      {
        FreeNext(g, data, p, bits, bitmap, owner, i, NDIRECT + j);
        if Word(bp, j) != 0 {
          ok := Bfree(Word(bp, j));
        }
        j := j + 1;
      }
    }

    /** The loops of itrunc: every block of the inode is freed and every address cleared. */
    method FreeAll(i: nat) returns (ok: bool)
      requires Whole() && i < |inodes|
      modifies `bitmap, `inodes, `logged
      ensures ok && Journals() && Freed(g, old(bitmap), bitmap, owner, i, PLACES)
      ensures inodes == old(inodes)[i := old(inodes)[i].(addrs := EMPTY.addrs)]
    {
      ghost var p, bits := inodes, bitmap;
      ok := FreeDirect(i);
      if inodes[i].addrs[NDIRECT] != 0 {
        ok := FreeIndirect(p, bits, i);
        FreeNext(g, data, p, bits, bitmap, owner, i, TABLE);
        ok := Bfree(inodes[i].addrs[NDIRECT]);
        inodes := SetAddr(inodes, i, NDIRECT, 0);
      } else {
        NoTable(g, data, p, bits, bitmap, owner, i);
      }
      assert inodes[i].addrs == EMPTY.addrs;
    }

    /** itrunc: bfree never panics; the file becomes empty, its blocks and no others become free, and no other
        file changes. */
    method Itrunc(i: nat) returns (ok: bool)
      requires Valid() && i < |inodes|
      modifies `bitmap, `inodes, `dinodes, `owner, `files, `logged
      ensures ok && Valid() && Journals() && inodes == old(inodes)[i := EMPTY] && files == old(files)[i := []]
      ensures forall b :: 0 <= b < g.size ==>
                (Used(bitmap, b) <==> Used(old(bitmap), b) && !Holds(data, old(inodes), i, b))
    {
      ghost var p, bits := inodes, bitmap;
      ok := FreeAll(i);
      inodes := inodes[i := inodes[i].(size := 0)];
      dinodes := dinodes[i := inodes[i]];
      logged := logged + {InodeOf(i / IPB)};
      assert inodes == p[i := EMPTY];
      TruncKeeps(g, data, p, bits, bitmap, owner, i);
      TruncMeans(g, data, p, bits, bitmap, owner, i);
      owner := Without(owner, i);
      files := files[i := []];
    }

    /** One transaction of filewrite, with the file offset at off. */
    method WriteChunk(i: nat, s: seq<Byte>, off: nat) returns (r: Option<int>)
      requires Valid() && i < |inodes| && off + |s| < WORD && 0 < |s| <= CHUNK
      modifies `bitmap, `data, `inodes, `dinodes, `owner, `files, `logged
      ensures r.None? ==> Full(g, bitmap)
      ensures r.Some? ==> Valid() && |logged| <= MAXOPBLOCKS && Journaled(old(OnDisk()), OnDisk(), logged)
      ensures r.Some? ==>
                if Fits(|old(files)[i]|, off, |s|) then r.value == |s| && files == WrittenTo(old(files), i, off, s)
                          else r.value == -1 && files == old(files)
    {
      logged := {};
      r := Writei(i, s, off);
      assert r.Some? ==> logged - {} == logged;
    }

    lemma StoredNow()
      requires Valid()
      ensures Stored(g, OnDisk(), files)
    {
      assert Consistent(g, OnDisk().data, OnDisk().dinodes, OnDisk().bitmap, owner);
    }

    /** The loop of filewrite has written `done` bytes of src over the files f. */
    ghost predicate Chunking(f: seq<seq<Byte>>, i: nat, src: seq<Byte>, off: nat, done: nat, disks: seq<Media>,
                             ops: seq<set<Logged>>)
      reads this
    {
      && Valid() && i < |inodes| == |f| && |f[i]| <= MAXBYTES && done <= |src|
      && files == WrittenTo(f, i, off, src[..done]) && (done > 0 ==> Fits(|f[i]|, off, done))
      && Counted(|ops|, done, |src|)
      && Chunks(g, f, i, off, src, done, disks, ops) && disks[|ops|] == OnDisk()
    }

    /** The transaction that has just ended is the next of the sequence. */
    lemma Recorded(f: seq<seq<Byte>>, i: nat, src: seq<Byte>, off: nat, done: nat, done': nat, disks: seq<Media>,
                   ops: seq<set<Logged>>)
      requires Valid() && Chunks(g, f, i, off, src, done, disks, ops) && done == |ops| * CHUNK
      requires done <= done' <= |src| && done' <= done + CHUNK && files == WrittenTo(f, i, off, src[..done'])
      requires Journaled(disks[|ops|], OnDisk(), logged) && |logged| <= MAXOPBLOCKS
      ensures Chunks(g, f, i, off, src, done', disks + [OnDisk()], ops + [logged])
    {
      StoredNow();
      ChunksNext(g, f, i, off, src, done, done' - done, disks, ops, OnDisk(), logged);
    }

    /** A chunk of src on its way to the disk. */
    method PutChunk(ghost f: seq<seq<Byte>>, i: nat, src: seq<Byte>, off: nat, done: nat, n1: nat, ghost q: nat)
        returns (r: Option<int>)
      requires Valid() && i < |inodes| == |f| && off + |src| < WORD && |f[i]| <= MAXBYTES
      requires done < |src| && done == q * CHUNK && (done > 0 ==> Fits(|f[i]|, off, done))
      requires 0 < n1 <= CHUNK && done + n1 <= |src| && (n1 < CHUNK ==> done + n1 == |src|)
      requires files == WrittenTo(f, i, off, src[..done])
      modifies `bitmap, `data, `inodes, `dinodes, `owner, `files, `logged
      ensures r.None? ==> Full(g, bitmap)
      ensures r.Some? ==> Valid() && |logged| <= MAXOPBLOCKS && Journaled(old(OnDisk()), OnDisk(), logged)
      ensures r.Some? && r.value >= 0 ==>
                r.value == n1 && Fits(|f[i]|, off, done + n1) && files == WrittenTo(f, i, off, src[..done + n1])
      ensures r.Some? && r.value < 0 ==>
                files == old(files) && !Fits(|f[i]|, off, |src|) && Accepted(|f[i]|, off, |src|) == done
    {
      ChunkDone(f, i, off, src, done, n1, q);
      r := WriteChunk(i, src[done..done + n1], off + done);
    }

    /** A round of filewrite's loop. */
    method NextChunk(ghost f: seq<seq<Byte>>, i: nat, src: seq<Byte>, off: nat, done: nat, ghost disks: seq<Media>,
                     ghost ops: seq<set<Logged>>)
        returns (r: Option<int>, done': nat, ghost disks': seq<Media>, ghost ops': seq<set<Logged>>)
      requires Chunking(f, i, src, off, done, disks, ops) && done < |src| && off + |src| < WORD
      modifies `bitmap, `data, `inodes, `dinodes, `owner, `files, `logged
      ensures r.None? ==> Full(g, bitmap) && disks' == disks && ops' == ops && done' == done
      ensures r.Some? ==> Chunks(g, f, i, off, src, done', disks', ops') && |ops'| == |ops| + 1
      ensures r.Some? ==> Valid() && disks'[0] == disks[0] && disks'[|ops'|] == OnDisk()
      ensures r.Some? && r.value >= 0 ==> done < done' && Chunking(f, i, src, off, done', disks', ops')
      ensures r.Some? && r.value < 0 ==>
                done' == done && files == old(files) && !Fits(|f[i]|, off, |src|)
                && Accepted(|f[i]|, off, |src|) == done
    {
      var n1 := |src| - done;
      if n1 > CHUNK { n1 := CHUNK; }
      CountedNext(|ops|, done, n1, |src|);
      r := PutChunk(f, i, src, off, done, n1, |ops|);
      done', disks', ops' := done, disks, ops;
      if r.None? { return; }
      if r.value >= 0 { done' := done + n1; }
      Recorded(f, i, src, off, done, done', disks, ops);
      disks', ops' := disks + [OnDisk()], ops + [logged];
      assert disks'[0] == disks[0] && disks'[|ops'|] == OnDisk();
    }

    /** filewrite on an inode: transactions of at most CHUNK bytes, each within the log's allowance.  All of src is
        written exactly when it fits; otherwise the chunks before the first that does not fit stay written.  `disks`
        holds what is on the disk before the first transaction and after each, `ops` what each has logged. */
    method Filewrite(i: nat, src: seq<Byte>, off: nat)
        returns (r: Option<int>, off': nat, ghost disks: seq<Media>, ghost ops: seq<set<Logged>>)
      requires Valid() && i < |inodes| && off + |src| < WORD
      modifies `bitmap, `data, `inodes, `dinodes, `owner, `files, `logged
      ensures r.None? ==> Full(g, bitmap)
      ensures off <= off' <= off + |src| && Chunks(g, old(files), i, off, src, off' - off, disks, ops)
      ensures disks[0] == old(OnDisk())
      ensures r.Some? ==> Valid() && disks[|ops|] == OnDisk()
      ensures r.Some? ==> files == WrittenTo(old(files), i, off, src[..off' - off])
      ensures r.Some? ==> r.value == if |src| == 0 || Fits(|old(files)[i]|, off, |src|) then |src| else -1
      ensures r.Some? ==> off' - off == Accepted(|old(files)[i]|, off, |src|)
      ensures r.Some? ==> |ops| == Transactions(|old(files)[i]|, off, |src|)
    {
      var n, done := |src|, 0;
      disks, ops := [OnDisk()], [];
      ghost var f := files;
      WrittenToNone(f, i, off, src);
      StoredNow();
      while done < n
        invariant Chunking(f, i, src, off, done, disks, ops) && disks[0] == old(OnDisk())
      {
        r, done, disks, ops := NextChunk(f, i, src, off, done, disks, ops);
        if r.None? { return r, off + done, disks, ops; }
        if r.value < 0 {
          return ProcTypes.Some(-1), off + done, disks, ops;
        }
      }
      return ProcTypes.Some(n), off + done, disks, ops;
    }
  }

  // ---------- What a sequence of transactions leaves on the disk ----------

  /** The disk holds a consistent file system with these files. */
  ghost predicate Stored(g: Geometry, m: Media, files: seq<seq<Byte>>) {
    && Shows(m.data, m.dinodes, files)
    && exists owner :: Consistent(g, m.data, m.dinodes, m.bitmap, owner)
  }

  /** Bytes of the first k chunks, when only `done` bytes are written at all. */
  function Upto(k: nat, done: nat): (n: nat)
    ensures n <= done
  {
    if k * CHUNK < done then k * CHUNK else done
  }

  /** How many chunks make n bytes, and how many transactions filewrite makes: one more when the last is refused. */
  function Ceiling(n: nat): nat {
    (n + CHUNK - 1) / CHUNK
  }

  /** q chunks have taken `done` of n bytes. */
  predicate Counted(q: nat, done: nat, n: nat) {
    q == Ceiling(done) && (done < n ==> done == q * CHUNK)
  }

  lemma CountedNext(q: nat, done: nat, more: nat, n: nat)
    requires Counted(q, done, n) && 0 < more <= CHUNK && done + more <= n && (done + more < n ==> more == CHUNK)
    ensures Counted(q + 1, done + more, n)
  {
    DivMod(q * CHUNK + more + CHUNK - 1, CHUNK, q + 1, more - 1);
  }

  function Transactions(size: nat, off: nat, n: nat): nat {
    Ceiling(Accepted(size, off, n)) + if n == 0 || Fits(size, off, n) then 0 else 1
  }

  /** Transaction k logs what it changes, and no more than it may. */
  ghost predicate LogsAt(disks: seq<Media>, ops: seq<set<Logged>>, k: nat)
    requires k < |ops| && |disks| == |ops| + 1
  {
    Journaled(disks[k], disks[k + 1], ops[k]) && |ops[k]| <= MAXOPBLOCKS
  }

  /** Disk k holds the file system with the first k chunks of src in file i, when `done` bytes are written at all. */
  ghost predicate StageAt(g: Geometry, f: seq<seq<Byte>>, i: nat, off: nat, src: seq<Byte>, done: nat,
                          disks: seq<Media>, k: nat)
    requires i < |f| && done <= |src| && k < |disks|
  {
    Stored(g, disks[k], WrittenTo(f, i, off, src[..Upto(k, done)]))
  }

  /** Each transaction logs what it changes and no more than it may, and leaves one chunk more of src in file i, until
      `done` bytes are there. */
  ghost predicate Chunks(g: Geometry, f: seq<seq<Byte>>, i: nat, off: nat, src: seq<Byte>, done: nat,
                         disks: seq<Media>, ops: seq<set<Logged>>) {
    && i < |f| && done <= |src| && |disks| == |ops| + 1
    && (forall k :: 0 <= k < |ops| ==> LogsAt(disks, ops, k))
    && (forall k :: 0 <= k < |disks| ==> StageAt(g, f, i, off, src, done, disks, k))
  }

  lemma ChunksNext(g: Geometry, f: seq<seq<Byte>>, i: nat, off: nat, src: seq<Byte>, done: nat, more: nat,
                   disks: seq<Media>, ops: seq<set<Logged>>, disk: Media, op: set<Logged>)
    requires Chunks(g, f, i, off, src, done, disks, ops) && done == |ops| * CHUNK
    requires done + more <= |src| && more <= CHUNK
    requires Journaled(disks[|ops|], disk, op) && |op| <= MAXOPBLOCKS
    requires Stored(g, disk, WrittenTo(f, i, off, src[..done + more]))
    ensures Chunks(g, f, i, off, src, done + more, disks + [disk], ops + [op])
  {
    var all, ds, os := done + more, disks + [disk], ops + [op];
    forall k | 0 <= k < |os|
      ensures LogsAt(ds, os, k)
    {
      assert k < |ops| ==> LogsAt(disks, ops, k);
    }
    forall k | 0 <= k < |ds|
      ensures StageAt(g, f, i, off, src, all, ds, k)
    {
      UptoKept(k, |ops|, done, more);
      assert k < |disks| ==> StageAt(g, f, i, off, src, done, disks, k);
    }
  }

  lemma UptoKept(k: nat, q: nat, done: nat, more: nat)
    requires done == q * CHUNK && more <= CHUNK && k <= q + 1
    ensures Upto(k, done + more) == if k <= q then Upto(k, done) else done + more
  {
  }

  /** The inode with its first n addresses cleared. */
  ghost function Cleared(ip: Inode, n: nat): Inode
    requires n <= |ip.addrs|
  {
    ip.(addrs := seq(n, _ => 0) + ip.addrs[n..])
  }

  lemma ClearedNext(ip: Inode, n: nat)
    requires n < |ip.addrs|
    ensures Cleared(ip, 0) == ip
    ensures Cleared(ip, n).addrs[n] == ip.addrs[n]
    ensures Cleared(ip, n).(addrs := Cleared(ip, n).addrs[n := 0]) == Cleared(ip, n + 1)
    ensures ip.addrs[n] == 0 ==> Cleared(ip, n) == Cleared(ip, n + 1)
  {
    assert Cleared(ip, n).addrs[n := 0] == Cleared(ip, n + 1).addrs;
    assert Cleared(ip, 0).addrs == ip.addrs;
    assert ip.addrs[n] == 0 ==> Cleared(ip, n).addrs == Cleared(ip, n + 1).addrs;
  }

  /** The end of a read of n bytes at off. */
  function Capped(off: nat, n: nat, size: nat): nat
    requires off <= size
  {
    if off + n > size then size else off + n
  }

  lemma SliceJoin(s: seq<Byte>, a: nat, b: nat, c: nat)
    requires a <= b <= c <= |s|
    ensures s[a..b] + s[b..c] == s[a..c]
  {
  }

  lemma ReadByte(data: seq<Block>, ip: Inode, at: nat, c: nat, k: nat)
    requires FileOk(data, ip) && at + c <= ip.size && 0 < c <= BSIZE - at % BSIZE && at <= k < at + c
    ensures Mapped(data, ip, at) && k - at + at % BSIZE < BSIZE
    ensures Contents(data, ip)[k] == data[Addr(data, ip, at / BSIZE)][k - at + at % BSIZE]
  {
    InBlock(at, c, k);
    assert Mapped(data, ip, at) && Mapped(data, ip, k);
  }

  lemma ReadBlock(data: seq<Block>, ip: Inode, at: nat, c: nat)
    requires FileOk(data, ip) && at + c <= ip.size && 0 < c <= BSIZE - at % BSIZE
    ensures Mapped(data, ip, at)
    ensures Contents(data, ip)[at..at + c] == data[Addr(data, ip, at / BSIZE)][at % BSIZE..at % BSIZE + c]
  {
    assert Mapped(data, ip, at);
    var read := Contents(data, ip)[at..at + c];
    var part := data[Addr(data, ip, at / BSIZE)][at % BSIZE..at % BSIZE + c];
    forall j | 0 <= j < c
      ensures read[j] == part[j]
    {
      ReadByte(data, ip, at, c, at + j);
    }
  }

  /** What the loop of writei and the new size leave in every file. */
  lemma RoundsContents(u: View, w: View, f: seq<seq<Byte>>, i: nat, off: nat, s: seq<Byte>, q: seq<Inode>)
    requires Shows(u.data, u.inodes, f)
    requires Stores(u, w, i, off, s) && Fits(u.inodes[i].size, off, |s|)
    requires q == w.inodes[i :=
               w.inodes[i].(size := if off + |s| > u.inodes[i].size then off + |s| else u.inodes[i].size)]
    ensures |f| == |q| && off <= |f[i]| && Shows(w.data, q, f[i := Overwrite(f[i], off, s)])
  {
    assert q[i].(size := u.inodes[i].size) == w.inodes[i];
    WrittenContents(u.data, u.inodes[i], w.data, q[i], off, s);
    forall j | 0 <= j < |q| && j != i
      ensures FileOk(w.data, q[j]) && Contents(w.data, q[j]) == f[j]
    {
      SameContents(u.data, u.inodes[j], w.data, q[j]);
    }
  }

  /** The files after s is written at off of file i, if that is not beyond its end. */
  function WrittenTo(f: seq<seq<Byte>>, i: nat, off: nat, s: seq<Byte>): seq<seq<Byte>>
    requires i < |f|
  {
    if off <= |f[i]| then f[i := Overwrite(f[i], off, s)] else f
  }

  lemma WrittenToTwice(f: seq<seq<Byte>>, i: nat, off: nat, src: seq<Byte>, m: nat, n: nat)
    requires i < |f| && off <= |f[i]| && m + n <= |src|
    ensures WrittenTo(WrittenTo(f, i, off, src[..m]), i, off + m, src[m..m + n]) == WrittenTo(f, i, off, src[..m + n])
  {
    OverwriteTwice(f[i], off, src[..m], src[m..m + n]);
    assert src[..m] + src[m..m + n] == src[..m + n];
  }

  /** Whether the chunk after the first q is taken or refused, and what that says of the whole write. */
  lemma ChunkDone(f: seq<seq<Byte>>, i: nat, off: nat, src: seq<Byte>, done: nat, n1: nat, q: nat)
    requires i < |f| && |f[i]| <= MAXBYTES && done < |src| && done == q * CHUNK
    requires done > 0 ==> Fits(|f[i]|, off, done)
    requires 0 < n1 <= CHUNK && done + n1 <= |src| && (n1 < CHUNK ==> done + n1 == |src|)
    ensures var now := WrittenTo(f, i, off, src[..done]);
            if Fits(|now[i]|, off + done, n1)
            then Fits(|f[i]|, off, done + n1)
                 && WrittenTo(now, i, off + done, src[done..done + n1]) == WrittenTo(f, i, off, src[..done + n1])
            else !Fits(|f[i]|, off, |src|) && Accepted(|f[i]|, off, |src|) == done
  {
    if off <= |f[i]| {
      if off + done + n1 <= MAXBYTES {
        WrittenToTwice(f, i, off, src, done, n1);
      } else {
        AcceptedIs(|f[i]|, off, |src|, q, n1);
      }
    }
  }

  lemma WrittenToNone(f: seq<seq<Byte>>, i: nat, off: nat, src: seq<Byte>)
    requires i < |f|
    ensures WrittenTo(f, i, off, src[..0]) == f
  {
    assert off <= |f[i]| ==> Overwrite(f[i], off, src[..0]) == f[i];
  }

  /** Places do not depend on sizes. */
  lemma SameAddrs(g: Geometry, data: seq<Block>, p: seq<Inode>, q: seq<Inode>, bitmap: seq<MapBlock>, owner: map<nat,
                  Ref>)
    requires Consistent(g, data, p, bitmap, owner)
    requires |p| == |q| && forall i :: 0 <= i < |p| ==> q[i].addrs == p[i].addrs
    ensures Consistent(g, data, q, bitmap, owner)
  {
    forall i: nat, r: nat | IsRef(q, i, r)
      ensures RefOk(g, data, q, owner, i, r)
    {
      assert RefOk(g, data, p, owner, i, r);
    }
    forall b | 0 <= b < g.size
      ensures BlockOk(g, data, q, bitmap, owner, b)
    {
      assert BlockOk(g, data, p, bitmap, owner, b);
    }
  }

  /** Four blocks of the file, one block each of the free map for three of them and for the indirect block,
      the indirect block and the inode: a write that filewrite makes fits one transaction. */
  lemma LogBound(s: set<Logged>, maps: set<Logged>, blocks: set<Logged>, table: set<Logged>, inode: Logged,
                 o: nat, n: nat, c: nat)
    requires n <= CHUNK && o < BSIZE && c * BSIZE < o + n + BSIZE
    requires s <= maps + blocks + table + {inode} && |table| <= 1
    requires |blocks| <= c
    requires |maps| <= c - (if c > 0 && o != 0 then 1 else 0) + |table|
    ensures |s| <= MAXOPBLOCKS
  {
    SubsetSize(s, maps + blocks + table + {inode});
  }

  /** What one call of writei by filewrite may carry. */
  const CHUNK: nat := (MAXOPBLOCKS - 1 - 1 - 2) / 2 * 512

  predicate Fits(size: nat, off: nat, n: nat) {
    off <= size && off + n <= MAXBYTES
  }

  /** How many of n bytes filewrite stores at off: all of them, or the whole chunks that fit. */
  function Accepted(size: nat, off: nat, n: nat): nat {
    if off > size || off > MAXBYTES then 0
    else if off + n <= MAXBYTES then n
    else (MAXBYTES - off) / CHUNK * CHUNK
  }

  lemma AcceptedIs(size: nat, off: nat, n: nat, q: nat, n1: nat)
    requires off <= size <= MAXBYTES && off + q * CHUNK <= MAXBYTES < off + q * CHUNK + n1
    requires n1 <= CHUNK && q * CHUNK + n1 <= n
    ensures Accepted(size, off, n) == q * CHUNK
  {
    DivMod(MAXBYTES - off, CHUNK, q, MAXBYTES - off - q * CHUNK);
  }

  lemma InBlock(off: nat, n: nat, k: nat)
    requires 0 < n <= BSIZE - off % BSIZE
    ensures off <= k < off + n <==> k / BSIZE == off / BSIZE && off % BSIZE <= k % BSIZE < off % BSIZE + n
    ensures k / BSIZE == off / BSIZE ==> k % BSIZE - off % BSIZE == k - off
  {
  }
}
