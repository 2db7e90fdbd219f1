/** The encodings fs.c reads and writes inside blocks: bits of the free map and 32-bit words of indirect blocks. */
module FsBlocks {
  import opened Params

  const BSIZE: nat := 512
  const BPB: nat := 4096

  type Block = b: seq<Byte> | |b| == BSIZE witness seq(BSIZE, _ => 0)
  type MapBlock = b: seq<bv8> | |b| == BSIZE witness seq(BSIZE, _ => 0)

  const ZERO: Block := seq(BSIZE, _ => 0)

  // ---------- The free map ----------

  function Mask(bi: nat): bv8 {
    (1 as bv8) << (bi % 8)
  }

  /** Bit `bi` of a block of the free map, and the block with that bit set and cleared. */
  predicate HasBit(m: MapBlock, bi: nat)
    requires bi < BPB
  {
    m[bi / 8] & Mask(bi) != 0
  }

  function WithBit(m: MapBlock, bi: nat): MapBlock
    requires bi < BPB
  {
    m[bi / 8 := m[bi / 8] | Mask(bi)]
  }

  function WithoutBit(m: MapBlock, bi: nat): MapBlock
    requires bi < BPB
  {
    m[bi / 8 := m[bi / 8] & !Mask(bi)]
  }

  /** The bit of block `b` in a free map of one bit per block. */
  predicate Used(bitmap: seq<MapBlock>, b: nat) {
    b / BPB < |bitmap| && HasBit(bitmap[b / BPB], b % BPB)
  }

  function SetUsed(bitmap: seq<MapBlock>, b: nat): (r: seq<MapBlock>)
    requires b / BPB < |bitmap|
    ensures |r| == |bitmap|
  {
    bitmap[b / BPB := WithBit(bitmap[b / BPB], b % BPB)]
  }

  function SetFree(bitmap: seq<MapBlock>, b: nat): (r: seq<MapBlock>)
    requires b / BPB < |bitmap|
    ensures |r| == |bitmap|
  {
    bitmap[b / BPB := WithoutBit(bitmap[b / BPB], b % BPB)]
  }

  /** Bit bi of the map block that starts at block b stands for block b + bi. */
  lemma MapPlace(bitmap: seq<MapBlock>, b: nat, bi: nat)
    requires b % BPB == 0 && bi < BPB && b / BPB < |bitmap|
    ensures (b + bi) / BPB == b / BPB
    ensures var bp := bitmap[b / BPB];
            && (Used(bitmap, b + bi) <==> bp[bi / 8] & Mask(bi) != 0)
            && SetUsed(bitmap, b + bi) == bitmap[b / BPB := bp[bi / 8 := bp[bi / 8] | Mask(bi)]]
  {
    assert (b + bi) / BPB == b / BPB && (b + bi) % BPB == bi;
  }

  lemma Masks(x: bv8, i: nat, j: nat)
    requires i < 8 && j < 8
    ensures (x | Mask(i)) & Mask(j) != 0 <==> i == j || x & Mask(j) != 0
    ensures (x & !Mask(i)) & Mask(j) != 0 <==> i != j && x & Mask(j) != 0
  {
  }

  lemma MaskMod(bi: nat)
    ensures Mask(bi) == Mask(bi % 8)
  {
  }

  lemma SamePlace(x: nat, y: nat, n: nat)
    requires n > 0 && x / n == y / n && x % n == y % n
    ensures x == y
  {
  }

  lemma MasksMod(x: bv8, bi: nat, ci: nat)
    ensures (x | Mask(bi)) & Mask(ci) != 0 <==> bi % 8 == ci % 8 || x & Mask(ci) != 0
    ensures (x & !Mask(bi)) & Mask(ci) != 0 <==> bi % 8 != ci % 8 && x & Mask(ci) != 0
  {
    MaskMod(bi);
    MaskMod(ci);
    Masks(x, bi % 8, ci % 8);
  }

  lemma OtherByte(m: MapBlock, bi: nat, ci: nat)
    requires bi < BPB && ci < BPB && bi / 8 != ci / 8
    ensures WithBit(m, bi)[ci / 8] == WithoutBit(m, bi)[ci / 8] == m[ci / 8]
  {
  }

  /** Changing one bit of a map block changes that bit alone. */
  lemma BitAfter(m: MapBlock, bi: nat, ci: nat)
    requires bi < BPB && ci < BPB
    ensures HasBit(WithBit(m, bi), ci) <==> bi == ci || HasBit(m, ci)
    ensures HasBit(WithoutBit(m, bi), ci) <==> bi != ci && HasBit(m, ci)
  {
    if bi / 8 == ci / 8 {
      MasksMod(m[bi / 8], bi, ci);
      if bi % 8 == ci % 8 {
        SamePlace(bi, ci, 8);
      }
    } else {
      OtherByte(m, bi, ci);
    }
  }

  lemma MaskBit(x: bv8, i: nat)
    requires i < 8
    ensures x & Mask(i) != 0 <==> (x >> i) & 1 == 1
  {
  }

  /** The free map of mkfs.c and fs.c: bit b % 8 of byte b / 8, counting 512 bytes to a block. */
  lemma UsedMeans(bitmap: seq<MapBlock>, b: nat)
    requires b / 4096 < |bitmap|
    ensures Used(bitmap, b) <==> (bitmap[b / 4096][b % 4096 / 8] >> (b % 8)) & 1 == 1
  {
    assert b % BPB % 8 == b % 8;
    MaskMod(b % BPB);
    MaskBit(bitmap[b / BPB][b % BPB / 8], b % 8);
  }

  /** Changing one block's bit changes that bit alone. */
  lemma UsedAfter(bitmap: seq<MapBlock>, b: nat, c: nat)
    requires b / BPB < |bitmap| && c / BPB < |bitmap|
    ensures Used(SetUsed(bitmap, b), c) <==> b == c || Used(bitmap, c)
    ensures Used(SetFree(bitmap, b), c) <==> b != c && Used(bitmap, c)
  {
    if b / BPB == c / BPB {
      BitAfter(bitmap[b / BPB], b % BPB, c % BPB);
      if b % BPB == c % BPB {
        SamePlace(b, c, BPB);
      }
    }
  }

  // ---------- Words ----------

  const NINDIRECT: nat := 128

  /** The j-th little-endian 32-bit word of a block. */
  function Word(b: Block, j: nat): nat
    requires j < NINDIRECT
  {
    var b0: int, b1: int, b2: int, b3: int := b[4 * j], b[4 * j + 1], b[4 * j + 2], b[4 * j + 3];
    b0 + 256 * b1 + 65536 * b2 + 16777216 * b3
  }

  function SetWord(b: Block, j: nat, w: nat): Block
    requires j < NINDIRECT && w < WORD
  {
    var d0, d1, d2, d3 := w % 256, w / 256 % 256, w / 65536 % 256, w / 16777216;
    b[4 * j := d0][4 * j + 1 := d1][4 * j + 2 := d2][4 * j + 3 := d3]
  }

  lemma Digits(w: nat)
    requires w < WORD
    ensures w == w % 256 + 256 * (w / 256 % 256) + 65536 * (w / 65536 % 256) + 16777216 * (w / 16777216)
  {
    assert w / 65536 == w / 256 / 256 && w / 16777216 == w / 65536 / 256;
  }

  lemma WordAfter(b: Block, j: nat, w: nat, k: nat)
    requires j < NINDIRECT && k < NINDIRECT && w < WORD
    ensures Word(SetWord(b, j, w), k) == if k == j then w else Word(b, k)
  {
    if k == j {
      Digits(w);
    }
  }

  lemma ZeroWord(j: nat)
    requires j < NINDIRECT
    ensures Word(ZERO, j) == 0
  {
  }
}
