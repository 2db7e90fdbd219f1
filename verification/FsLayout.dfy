/** How inodes, indirect blocks and the free map of fs.c fit together, as values. */
module FsLayout {
  import opened FsBlocks
  import opened Params

  const NDIRECT: nat := 12
  const MAXFILE: nat := NDIRECT + NINDIRECT
  const TABLE: nat := MAXFILE
  const PLACES: nat := TABLE + 1

  /** An inode: its size in bytes, NDIRECT block numbers and the number of its indirect block. */
  datatype Inode = Inode(size: nat, addrs: seq<nat>)

  /** A place that holds a block number: data block `r` of inode `i`, or its indirect block when r == TABLE. */
  datatype Ref = Ref(i: nat, r: nat)

  predicate IsRef(inodes: seq<Inode>, i: nat, r: nat) {
    i < |inodes| && r <= TABLE && |inodes[i].addrs| == NDIRECT + 1
  }

  /** The block number held at place `r` of an inode, 0 when there is none. */
  function Addr(data: seq<Block>, ip: Inode, r: nat): nat
    requires |ip.addrs| == NDIRECT + 1 && r <= TABLE
  {
    if r < NDIRECT then ip.addrs[r]
    else if r == TABLE then ip.addrs[NDIRECT]
    else if 0 < ip.addrs[NDIRECT] < |data| then Word(data[ip.addrs[NDIRECT]], r - NDIRECT)
    else 0
  }

  function At(data: seq<Block>, inodes: seq<Inode>, i: nat, r: nat): nat
    requires IsRef(inodes, i, r)
  {
    Addr(data, inodes[i], r)
  }

  /** The number of a file's block: for the first twelve it stands in the inode, then it is the little-endian word for
      it in the indirect block. */
  lemma AddrMeans(data: seq<Block>, ip: Inode, bn: nat)
    requires |ip.addrs| == 13 && bn < 140
    ensures bn < 12 ==> Addr(data, ip, bn) == ip.addrs[bn]
    ensures bn >= 12 && 0 < ip.addrs[12] < |data| ==>
              var table, w := data[ip.addrs[12]], 4 * (bn - 12);
              Addr(data, ip, bn) == table[w] as int + 0x100 * table[w + 1] as int + 0x1_0000 * table[w + 2] as int
                                    + 0x100_0000 * table[w + 3] as int
    ensures bn >= 12 && !(0 < ip.addrs[12] < |data|) ==> Addr(data, ip, bn) == 0
  {
  }

  // ---------- Which block belongs to whom ----------

  /** What is fixed about one file system: `meta` is the first data block, `size` the number of blocks. */
  datatype Geometry = Geometry(meta: nat, size: nat)

  /** Place (i, r) is empty, or holds a data block that is recorded as its own. */
  ghost predicate RefOk(g: Geometry, data: seq<Block>, inodes: seq<Inode>, owner: map<nat, Ref>, i: nat, r: nat)
    requires IsRef(inodes, i, r)
  {
    var a := At(data, inodes, i, r);
    a != 0 ==> g.meta <= a < g.size && a in owner && owner[a] == Ref(i, r)
  }

  /** Block b is marked in use exactly when it is metadata or the recorded place holds it. */
  ghost predicate BlockOk(g: Geometry, data: seq<Block>, inodes: seq<Inode>, bitmap: seq<MapBlock>,
                          owner: map<nat, Ref>, b: nat) {
    && (Used(bitmap, b) <==> b < g.meta || b in owner)
    && (b in owner ==> g.meta <= b && IsRef(inodes, owner[b].i, owner[b].r)
                       && At(data, inodes, owner[b].i, owner[b].r) == b)
  }

  ghost predicate Shape(g: Geometry, data: seq<Block>, inodes: seq<Inode>, bitmap: seq<MapBlock>) {
    && 0 < g.meta <= g.size <= |bitmap| * BPB && g.size < WORD
    && |data| == g.size
    && forall i :: 0 <= i < |inodes| ==> |inodes[i].addrs| == NDIRECT + 1
  }

  /** The free map, the inodes and the indirect blocks agree: no block has two places, and the blocks in use
      are the metadata and the blocks that have a place. */
  ghost predicate Consistent(g: Geometry, data: seq<Block>, inodes: seq<Inode>, bitmap: seq<MapBlock>,
                             owner: map<nat, Ref>) {
    && Shape(g, data, inodes, bitmap)
    && (forall i, r :: IsRef(inodes, i, r) ==> RefOk(g, data, inodes, owner, i, r))
    && (forall b :: 0 <= b < g.size ==> BlockOk(g, data, inodes, bitmap, owner, b))
  }

  /** What Consistent means without the ghost record of places. */
  lemma ConsistentMeans(g: Geometry, data: seq<Block>, inodes: seq<Inode>, bitmap: seq<MapBlock>, owner: map<nat, Ref>)
    requires Consistent(g, data, inodes, bitmap, owner)
    ensures forall i, r, j, s :: IsRef(inodes, i, r) && IsRef(inodes, j, s) ==>
              (At(data, inodes, i, r) == At(data, inodes, j, s) != 0 ==> i == j && r == s)
    ensures forall b :: 0 <= b < g.size ==>
              (Used(bitmap, b) <==> b < g.meta || exists i, r :: IsRef(inodes, i, r) && At(data, inodes, i, r) == b)
  {
    forall i: nat, r: nat, j: nat, s: nat | IsRef(inodes, i, r) && IsRef(inodes, j, s)
                        && At(data, inodes, i, r) == At(data, inodes, j, s) != 0
      ensures i == j && r == s
    {
      assert RefOk(g, data, inodes, owner, i, r) && RefOk(g, data, inodes, owner, j, s);
    }
    forall b | 0 <= b < g.size
      ensures Used(bitmap, b) <==> b < g.meta || exists i, r :: IsRef(inodes, i, r) && At(data, inodes, i, r) == b
    {
      assert BlockOk(g, data, inodes, bitmap, owner, b);
      if b >= g.meta && exists i, r :: IsRef(inodes, i, r) && At(data, inodes, i, r) == b {
        var i, r :| IsRef(inodes, i, r) && At(data, inodes, i, r) == b;
        assert RefOk(g, data, inodes, owner, i, r);
      }
    }
  }

  /** Every place holds what it held, except that (i0, r0) now holds b. */
  ghost predicate Attached(data: seq<Block>, inodes: seq<Inode>, data': seq<Block>, inodes': seq<Inode>,
                           i0: nat, r0: nat, b: nat) {
    && |inodes'| == |inodes|
    && (forall i :: 0 <= i < |inodes| ==> |inodes'[i].addrs| == |inodes[i].addrs|)
    && (forall i, r :: IsRef(inodes, i, r) && IsRef(inodes', i, r) ==>
          At(data', inodes', i, r) == if i == i0 && r == r0 then b else At(data, inodes, i, r))
  }

  /** Giving a free block to an empty place keeps the file system consistent. */
  lemma AttachKeeps(g: Geometry, data: seq<Block>, inodes: seq<Inode>, bitmap: seq<MapBlock>, owner: map<nat, Ref>,
                    data': seq<Block>, inodes': seq<Inode>, i0: nat, r0: nat, b: nat)
    requires Consistent(g, data, inodes, bitmap, owner)
    requires IsRef(inodes, i0, r0) && At(data, inodes, i0, r0) == 0
    requires b < g.size && !Used(bitmap, b)
    requires |data'| == |data| && Attached(data, inodes, data', inodes', i0, r0, b)
    ensures Consistent(g, data', inodes', SetUsed(bitmap, b), owner[b := Ref(i0, r0)])
  {
    var owner' := owner[b := Ref(i0, r0)];
    assert BlockOk(g, data, inodes, bitmap, owner, b);
    forall i: nat, r: nat | IsRef(inodes', i, r)
      ensures RefOk(g, data', inodes', owner', i, r)
    {
      assert RefOk(g, data, inodes, owner, i, r);
    }
    forall c | 0 <= c < g.size
      ensures BlockOk(g, data', inodes', SetUsed(bitmap, b), owner', c)
    {
      assert BlockOk(g, data, inodes, bitmap, owner, c);
      UsedAfter(bitmap, b, c);
    }
  }

  /** Zeroing a block that is free changes no place. */
  lemma ZeroFree(g: Geometry, data: seq<Block>, inodes: seq<Inode>, bitmap: seq<MapBlock>, owner: map<nat, Ref>,
                 b: nat, i: nat, r: nat)
    requires Consistent(g, data, inodes, bitmap, owner)
    requires b < g.size && !Used(bitmap, b)
    requires IsRef(inodes, i, r)
    ensures At(data[b := ZERO], inodes, i, r) == At(data, inodes, i, r)
  {
    assert RefOk(g, data, inodes, owner, i, TABLE);
    assert BlockOk(g, data, inodes, bitmap, owner, b);
  }

  function SetAddr(inodes: seq<Inode>, i: nat, k: nat, b: nat): (r: seq<Inode>)
    requires i < |inodes| && k < |inodes[i].addrs|
    ensures |r| == |inodes|
  {
    inodes[i := inodes[i].(addrs := inodes[i].addrs[k := b])]
  }

  /** A fresh block enters a direct address, or becomes the indirect block. */
  lemma AttachAddr(g: Geometry, data: seq<Block>, inodes: seq<Inode>, bitmap: seq<MapBlock>, owner: map<nat, Ref>,
                   i0: nat, k: nat, b: nat)
    requires Consistent(g, data, inodes, bitmap, owner)
    requires b < g.size && !Used(bitmap, b)
    requires i0 < |inodes| && k <= NDIRECT && inodes[i0].addrs[k] == 0
    ensures Attached(data, inodes, data[b := ZERO], SetAddr(inodes, i0, k, b), i0, if k == NDIRECT then TABLE else k, b)
  {
    var inodes' := SetAddr(inodes, i0, k, b);
    assert BlockOk(g, data, inodes, bitmap, owner, b);
    forall i: nat, r: nat | IsRef(inodes, i, r) && IsRef(inodes', i, r)
      ensures At(data[b := ZERO], inodes', i, r)
              == if i == i0 && r == (if k == NDIRECT then TABLE else k) then b else At(data, inodes, i, r)
    {
      ZeroFree(g, data, inodes, bitmap, owner, b, i, r);
      if NDIRECT <= r < TABLE {
        ZeroWord(r - NDIRECT);
      }
    }
  }

  /** A fresh block enters the indirect block of inode i0. */
  lemma AttachWord(g: Geometry, data: seq<Block>, inodes: seq<Inode>, bitmap: seq<MapBlock>, owner: map<nat, Ref>,
                   i0: nat, r0: nat, t: nat, b: nat)
    requires Consistent(g, data, inodes, bitmap, owner)
    requires b < g.size && !Used(bitmap, b)
    requires i0 < |inodes| && NDIRECT <= r0 < TABLE && inodes[i0].addrs[NDIRECT] == t != 0
    requires t < g.size && b != t
    ensures Attached(data, inodes, data[b := ZERO][t := SetWord(data[t], r0 - NDIRECT, b)], inodes, i0, r0, b)
  {
    var data' := data[b := ZERO][t := SetWord(data[t], r0 - NDIRECT, b)];
    assert RefOk(g, data, inodes, owner, i0, TABLE);
    forall i: nat, r: nat | IsRef(inodes, i, r)
      ensures At(data', inodes, i, r) == if i == i0 && r == r0 then b else At(data, inodes, i, r)
    {
      ZeroFree(g, data, inodes, bitmap, owner, b, i, r);
      assert RefOk(g, data, inodes, owner, i, TABLE);
      if NDIRECT <= r < TABLE {
        WordAfter(data[t], r0 - NDIRECT, b, r - NDIRECT);
      }
    }
  }

  /** Storing into a data block changes no place. */
  lemma StoreKeeps(g: Geometry, data: seq<Block>, inodes: seq<Inode>, bitmap: seq<MapBlock>, owner: map<nat, Ref>,
                   i0: nat, r0: nat, x: Block)
    requires Consistent(g, data, inodes, bitmap, owner)
    requires IsRef(inodes, i0, r0) && r0 < TABLE && At(data, inodes, i0, r0) != 0
    ensures At(data, inodes, i0, r0) < |data|
    ensures Consistent(g, data[At(data, inodes, i0, r0) := x], inodes, bitmap, owner)
    ensures forall i, r :: IsRef(inodes, i, r) ==>
              At(data[At(data, inodes, i0, r0) := x], inodes, i, r) == At(data, inodes, i, r)
  {
    assert RefOk(g, data, inodes, owner, i0, r0);
    var data' := data[At(data, inodes, i0, r0) := x];
    forall i: nat, r: nat | IsRef(inodes, i, r)
      ensures At(data', inodes, i, r) == At(data, inodes, i, r)
    {
      assert RefOk(g, data, inodes, owner, i, TABLE);
    }
    forall i: nat, r: nat | IsRef(inodes, i, r)
      ensures RefOk(g, data', inodes, owner, i, r)
    {
      assert RefOk(g, data, inodes, owner, i, r);
    }
    forall b | 0 <= b < g.size
      ensures BlockOk(g, data', inodes, bitmap, owner, b)
    {
      assert BlockOk(g, data, inodes, bitmap, owner, b);
    }
  }

  // ---------- What a file holds ----------

  const MAXBYTES: nat := MAXFILE * BSIZE

  predicate Mapped(data: seq<Block>, ip: Inode, k: nat)
    requires |ip.addrs| == NDIRECT + 1 && k < MAXBYTES
  {
    0 < Addr(data, ip, k / BSIZE) < |data|
  }

  function ByteAt(data: seq<Block>, ip: Inode, k: nat): Byte
    requires |ip.addrs| == NDIRECT + 1 && k < MAXBYTES
  {
    if Mapped(data, ip, k) then data[Addr(data, ip, k / BSIZE)][k % BSIZE] else 0
  }

  /** No file is longer than MAXFILE blocks, and no file has a hole. */
  ghost predicate FileOk(data: seq<Block>, ip: Inode) {
    && |ip.addrs| == NDIRECT + 1
    && ip.size <= MAXBYTES
    && forall k :: 0 <= k < ip.size ==> Mapped(data, ip, k)
  }

  ghost function Contents(data: seq<Block>, ip: Inode): (s: seq<Byte>)
    requires FileOk(data, ip)
    ensures |s| == ip.size
  {
    seq(ip.size, k requires 0 <= k < ip.size => ByteAt(data, ip, k))
  }

  /** Byte k of a file is byte k % 512 of its block k / 512. */
  lemma ContentsMeans(data: seq<Block>, ip: Inode, k: nat)
    requires FileOk(data, ip) && k < ip.size
    ensures k / 512 < 140 && Addr(data, ip, k / 512) < |data|
    ensures Contents(data, ip)[k] == data[Addr(data, ip, k / 512)][k % 512]
  {
    assert Mapped(data, ip, k);
  }

  /** A byte that has a block keeps its value. */
  ghost predicate SameByte(data: seq<Block>, ip: Inode, data': seq<Block>, ip': Inode, k: nat)
    requires |ip.addrs| == |ip'.addrs| == NDIRECT + 1 && k < MAXBYTES
  {
    Mapped(data, ip, k) ==> Mapped(data', ip', k) && ByteAt(data', ip', k) == ByteAt(data, ip, k)
  }

  ghost predicate SameBytes(data: seq<Block>, ip: Inode, data': seq<Block>, ip': Inode) {
    && |ip.addrs| == |ip'.addrs| == NDIRECT + 1
    && ip.size == ip'.size
    && forall k :: 0 <= k < MAXBYTES ==> SameByte(data, ip, data', ip', k)
  }

  lemma SameContents(data: seq<Block>, ip: Inode, data': seq<Block>, ip': Inode)
    requires SameBytes(data, ip, data', ip') && FileOk(data, ip)
    ensures FileOk(data', ip') && Contents(data', ip') == Contents(data, ip)
  {
    forall k | 0 <= k < ip.size
      ensures Mapped(data', ip', k) && ByteAt(data', ip', k) == ByteAt(data, ip, k)
    {
      assert SameByte(data, ip, data', ip', k);
    }
  }

  lemma SameTrans(d1: seq<Block>, p1: Inode, d2: seq<Block>, p2: Inode, d3: seq<Block>, p3: Inode)
    requires SameBytes(d1, p1, d2, p2) && SameBytes(d2, p2, d3, p3)
    ensures SameBytes(d1, p1, d3, p3)
  {
    forall k | 0 <= k < MAXBYTES
      ensures SameByte(d1, p1, d3, p3, k)
    {
      assert SameByte(d1, p1, d2, p2, k) && SameByte(d2, p2, d3, p3, k);
    }
  }

  /** Giving a fresh block to an empty place disturbs no byte of any file, provided the only other block that
      changes is the indirect block that now names it. */
  lemma AttachSame(g: Geometry, data: seq<Block>, inodes: seq<Inode>, bitmap: seq<MapBlock>, owner: map<nat, Ref>,
                   data': seq<Block>, inodes': seq<Inode>, i0: nat, r0: nat, b: nat, i: nat)
    requires Consistent(g, data, inodes, bitmap, owner)
    requires IsRef(inodes, i0, r0) && At(data, inodes, i0, r0) == 0
    requires b < g.size && !Used(bitmap, b)
    requires |data'| == |data| && Attached(data, inodes, data', inodes', i0, r0, b)
    requires forall c :: 0 <= c < |data| && c != b && c != inodes[i0].addrs[NDIRECT] ==> data'[c] == data[c]
    requires i < |inodes| && inodes'[i].size == inodes[i].size
    ensures SameBytes(data, inodes[i], data', inodes'[i])
  {
    assert BlockOk(g, data, inodes, bitmap, owner, b);
    forall k | 0 <= k < MAXBYTES
      ensures SameByte(data, inodes[i], data', inodes'[i], k)
    {
      var r := k / BSIZE;
      assert IsRef(inodes, i, r) && IsRef(inodes', i, r);
      assert RefOk(g, data, inodes, owner, i, r);
      assert RefOk(g, data, inodes, owner, i0, TABLE);
      assert At(data', inodes', i, r) == if i == i0 && r == r0 then b else At(data, inodes, i, r);
    }
  }

  function Patch(x: Block, o: nat, s: seq<Byte>): Block
    requires o + |s| <= BSIZE
  {
    x[..o] + s + x[o + |s|..]
  }

  /** Storing s at offset o of data block r0 of inode i0 changes those bytes of that file and nothing else. */
  lemma StoreByte(g: Geometry, data: seq<Block>, inodes: seq<Inode>, bitmap: seq<MapBlock>, owner: map<nat, Ref>,
                  i0: nat, r0: nat, o: nat, s: seq<Byte>, i: nat, k: nat)
    requires Consistent(g, data, inodes, bitmap, owner)
    requires IsRef(inodes, i0, r0) && r0 < TABLE && 0 < At(data, inodes, i0, r0) < |data|
    requires o + |s| <= BSIZE && i < |inodes| && k < MAXBYTES
    ensures var a := At(data, inodes, i0, r0);
            var data' := data[a := Patch(data[a], o, s)];
            && (Mapped(data', inodes[i], k) <==> Mapped(data, inodes[i], k))
            && ByteAt(data', inodes[i], k) ==
               if i == i0 && k / BSIZE == r0 && o <= k % BSIZE < o + |s| then s[k % BSIZE - o]
               else ByteAt(data, inodes[i], k)
  {
    var a := At(data, inodes, i0, r0);
    StoreKeeps(g, data, inodes, bitmap, owner, i0, r0, Patch(data[a], o, s));
    assert IsRef(inodes, i, k / BSIZE);
    assert RefOk(g, data, inodes, owner, i, k / BSIZE);
    assert RefOk(g, data, inodes, owner, i0, r0);
  }

  /** The bytes [off, off + |s|) of a file have become s; its other bytes that have a block are as before. */
  ghost predicate WrittenByte(data: seq<Block>, ip: Inode, data': seq<Block>, ip': Inode, off: nat, s: seq<Byte>,
                              k: nat)
    requires |ip.addrs| == |ip'.addrs| == NDIRECT + 1 && k < MAXBYTES
  {
    if off <= k < off + |s| then Mapped(data', ip', k) && ByteAt(data', ip', k) == s[k - off]
    else SameByte(data, ip, data', ip', k)
  }

  ghost predicate Written(data: seq<Block>, ip: Inode, data': seq<Block>, ip': Inode, off: nat, s: seq<Byte>) {
    && |ip.addrs| == |ip'.addrs| == NDIRECT + 1
    && ip.size == ip'.size
    && forall k :: 0 <= k < MAXBYTES ==> WrittenByte(data, ip, data', ip', off, s, k)
  }

  lemma WrittenTrans(d1: seq<Block>, p1: Inode, d2: seq<Block>, p2: Inode, d3: seq<Block>, p3: Inode,
                     off: nat, s: seq<Byte>, t: seq<Byte>)
    requires Written(d1, p1, d2, p2, off, s) && Written(d2, p2, d3, p3, off + |s|, t)
    ensures Written(d1, p1, d3, p3, off, s + t)
  {
    forall k | 0 <= k < MAXBYTES
      ensures WrittenByte(d1, p1, d3, p3, off, s + t, k)
    {
      assert WrittenByte(d1, p1, d2, p2, off, s, k) && WrittenByte(d2, p2, d3, p3, off + |s|, t, k);
    }
  }

  /** The bytes of a file after src is stored at off. */
  function Overwrite(s: seq<Byte>, off: nat, src: seq<Byte>): (r: seq<Byte>)
    requires off <= |s|
    ensures |r| == if off + |src| < |s| then |s| else off + |src|
  {
    s[..off] + src + if off + |src| < |s| then s[off + |src|..] else []
  }

  /** src stands at off, what was before and behind it is as it was, and the file grows just as far as src reaches. */
  lemma OverwriteMeans(s: seq<Byte>, off: nat, src: seq<Byte>)
    requires off <= |s|
    ensures var r, end := Overwrite(s, off, src), off + |src|;
            && |r| == (if end < |s| then |s| else end)
            && r[..off] == s[..off] && r[off..end] == src && (end < |s| ==> r[end..] == s[end..])
  {
  }

  /** Two writes, one after the other, are one write of both pieces. */
  lemma OverwriteTwice(s: seq<Byte>, off: nat, a: seq<Byte>, b: seq<Byte>)
    requires off <= |s|
    ensures Overwrite(Overwrite(s, off, a), off + |a|, b) == Overwrite(s, off, a + b)
  {
    var x, y := Overwrite(Overwrite(s, off, a), off + |a|, b), Overwrite(s, off, a + b);
    forall k | 0 <= k < |x|
      ensures x[k] == y[k]
    {
    }
  }

  lemma WrittenContents(data: seq<Block>, ip: Inode, data': seq<Block>, ip': Inode, off: nat, s: seq<Byte>)
    requires FileOk(data, ip) && off <= ip.size && off + |s| <= MAXBYTES
    requires Written(data, ip, data', ip'.(size := ip.size), off, s)
    requires ip'.size == if off + |s| > ip.size then off + |s| else ip.size
    ensures FileOk(data', ip')
    ensures Contents(data', ip') == Overwrite(Contents(data, ip), off, s)
  {
    var q := ip'.(size := ip.size);
    var w := Overwrite(Contents(data, ip), off, s);
    forall k | 0 <= k < ip'.size
      ensures Mapped(data', ip', k) && ByteAt(data', ip', k) == w[k]
    {
      assert WrittenByte(data, ip, data', q, off, s, k);
      assert Addr(data', q, k / BSIZE) == Addr(data', ip', k / BSIZE);
      if k < off || off + |s| <= k {
        assert Mapped(data, ip, k);
        assert w[k] == Contents(data, ip)[k];
      }
    }
  }

  // ---------- Truncation ----------

  /** Of the blocks in use, those at the first n places of inode i0 have become free. */
  ghost predicate FreedByte(bitmap: seq<MapBlock>, bitmap': seq<MapBlock>, owner: map<nat, Ref>, i0: nat, n: nat,
                            b: nat) {
    Used(bitmap', b) <==> Used(bitmap, b) && !(b in owner && owner[b].i == i0 && owner[b].r < n)
  }

  ghost predicate Freed(g: Geometry, bitmap: seq<MapBlock>, bitmap': seq<MapBlock>, owner: map<nat, Ref>, i0: nat,
                        n: nat) {
    && |bitmap'| == |bitmap|
    && forall b :: 0 <= b < g.size ==> FreedByte(bitmap, bitmap', owner, i0, n, b)
  }

  /** Freeing what place n holds, if it holds anything; the block is then still in use, so bfree accepts it. */
  lemma FreeNext(g: Geometry, data: seq<Block>, inodes: seq<Inode>, bitmap: seq<MapBlock>, bitmap': seq<MapBlock>,
                 owner: map<nat, Ref>, i0: nat, n: nat)
    requires Consistent(g, data, inodes, bitmap, owner) && IsRef(inodes, i0, n)
    requires Freed(g, bitmap, bitmap', owner, i0, n)
    ensures var a := At(data, inodes, i0, n);
            if a == 0 then Freed(g, bitmap, bitmap', owner, i0, n + 1)
            else a / BPB < |bitmap| && Used(bitmap', a) && Freed(g, bitmap, SetFree(bitmap', a), owner, i0, n + 1)
  {
    var a := At(data, inodes, i0, n);
    assert RefOk(g, data, inodes, owner, i0, n);
    if a != 0 {
      assert BlockOk(g, data, inodes, bitmap, owner, a);
      assert FreedByte(bitmap, bitmap', owner, i0, n, a);
    }
    var bits, n1 := if a == 0 then bitmap' else SetFree(bitmap', a), n + 1;
    forall b | 0 <= b < g.size
      ensures FreedByte(bitmap, bits, owner, i0, n1, b)
    {
      assert FreedByte(bitmap, bitmap', owner, i0, n, b);
      assert BlockOk(g, data, inodes, bitmap, owner, b);
      if a != 0 {
        UsedAfter(bitmap', a, b);
      }
    }
  }

  const EMPTY: Inode := Inode(0, seq(NDIRECT + 1, _ => 0))

  ghost function Without(owner: map<nat, Ref>, i0: nat): map<nat, Ref> {
    map b | b in owner && owner[b].i != i0 :: owner[b]
  }

  /** An inode whose places are all freed and cleared leaves a consistent file system. */
  lemma TruncKeeps(g: Geometry, data: seq<Block>, inodes: seq<Inode>, bitmap: seq<MapBlock>, bitmap': seq<MapBlock>,
                   owner: map<nat, Ref>, i0: nat)
    requires Consistent(g, data, inodes, bitmap, owner) && i0 < |inodes|
    requires Freed(g, bitmap, bitmap', owner, i0, PLACES)
    ensures Consistent(g, data, inodes[i0 := EMPTY], bitmap', Without(owner, i0))
  {
    var inodes' := inodes[i0 := EMPTY];
    forall i: nat, r: nat | IsRef(inodes', i, r)
      ensures RefOk(g, data, inodes', Without(owner, i0), i, r)
    {
      assert RefOk(g, data, inodes, owner, i, r);
    }
    forall b | 0 <= b < g.size
      ensures BlockOk(g, data, inodes', bitmap', Without(owner, i0), b)
    {
      assert BlockOk(g, data, inodes, bitmap, owner, b);
      assert FreedByte(bitmap, bitmap', owner, i0, PLACES, b);
    }
  }

  /** Without an indirect block the places behind it are empty. */
  lemma NoTable(g: Geometry, data: seq<Block>, inodes: seq<Inode>, bitmap: seq<MapBlock>, bitmap': seq<MapBlock>,
                owner: map<nat, Ref>, i0: nat)
    requires Consistent(g, data, inodes, bitmap, owner) && i0 < |inodes| && inodes[i0].addrs[NDIRECT] == 0
    requires Freed(g, bitmap, bitmap', owner, i0, NDIRECT)
    ensures Freed(g, bitmap, bitmap', owner, i0, PLACES)
  {
    forall b | 0 <= b < g.size
      ensures FreedByte(bitmap, bitmap', owner, i0, PLACES, b)
    {
      assert FreedByte(bitmap, bitmap', owner, i0, NDIRECT, b);
      assert BlockOk(g, data, inodes, bitmap, owner, b);
    }
  }

  /** Some place of inode i holds block b. */
  ghost predicate Holds(data: seq<Block>, inodes: seq<Inode>, i: nat, b: nat) {
    b != 0 && exists r :: IsRef(inodes, i, r) && At(data, inodes, i, r) == b
  }

  /** The blocks freed are those the inode's places hold. */
  lemma TruncMeans(g: Geometry, data: seq<Block>, inodes: seq<Inode>, bitmap: seq<MapBlock>, bitmap': seq<MapBlock>,
                   owner: map<nat, Ref>, i0: nat)
    requires Consistent(g, data, inodes, bitmap, owner) && i0 < |inodes|
    requires Freed(g, bitmap, bitmap', owner, i0, PLACES)
    ensures forall b :: 0 <= b < g.size ==>
              (Used(bitmap', b) <==> Used(bitmap, b) && !Holds(data, inodes, i0, b))
  {
    forall b | 0 <= b < g.size
      ensures Used(bitmap', b) <==> Used(bitmap, b) && !Holds(data, inodes, i0, b)
    {
      assert FreedByte(bitmap, bitmap', owner, i0, PLACES, b);
      assert BlockOk(g, data, inodes, bitmap, owner, b);
      if Holds(data, inodes, i0, b) {
        var r: nat :| IsRef(inodes, i0, r) && At(data, inodes, i0, r) == b;
        assert RefOk(g, data, inodes, owner, i0, r);
      }
    }
  }
}
