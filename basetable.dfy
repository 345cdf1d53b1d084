/**
 * The capability flags and textures of the base tiles (levels 1..8), as the
 * tile manager stamps them at start-up: the flags come from the mask table
 * of the `_lmask.bin` file, the mask textures are handed out to the tiles
 * whose flags ask for one, in tile order, and the base level is lowered
 * until the surface textures that could be loaded cover it.
 */
module BaseTable {
  import opened TileTypes
  import opened PatchTables

  /** A 16-bit word of the mask table. */
  type Word = x: int | 0 <= x < 0x1_0000

  /**
   * The flag `LoadPatchData` gives base tile i when the mask table covers
   * the tiles from `start` on: 1 (opaque, no lights) before the covered
   * range, the low byte of the table entry within it.
   */
  function PatchFlag(i: nat, start: nat, tflag: seq<Word>): (f: bv32)
    requires i >= start ==> i - start < |tflag|
    ensures i < start ==> f == 1
    ensures i >= start ==> f <= 0xFF
  {
    if i < start then 1 else LowByte(tflag[i - start])
  }

  /** The low byte of a table word, the part that becomes a tile flag. */
  function LowByte(w: Word): (f: bv32)
    ensures f <= 0xFF
  {
    (w as bv32) & 0xFF
  }

  /** Number of tiles among `ts` whose flags ask for a mask texture. */
  function MaskCount(ts: seq<Tile>): (n: nat)
    ensures n <= |ts|
  {
    if ts == [] then 0 else MaskCount(ts[..|ts| - 1]) + (if HasMask(ts[|ts| - 1].flag) then 1 else 0)
  }

  /** The position of tile i among the tiles that ask for a mask texture. */
  function MaskRank(ts: seq<Tile>, i: nat): nat
    requires i <= |ts|
  {
    MaskCount(ts[..i])
  }

  lemma MaskRankStep(ts: seq<Tile>, i: nat)
    requires i < |ts|
    ensures MaskRank(ts, i + 1) == MaskRank(ts, i) + (if HasMask(ts[i].flag) then 1 else 0)
  {
    assert ts[..i + 1][..i] == ts[..i];
  }

  /** The mask count of a whole sequence is its rank at the end. */
  lemma MaskRankAll(ts: seq<Tile>)
    ensures MaskRank(ts, |ts|) == MaskCount(ts)
  {
    assert ts[..|ts|] == ts;
  }

  /** Ranks never decrease along the sequence. */
  lemma {:induction false} MaskRankMonotone(ts: seq<Tile>, i: nat, j: nat)
    requires i <= j <= |ts|
    ensures MaskRank(ts, i) <= MaskRank(ts, j)
    decreases j - i
  {
    if i < j {
      MaskRankStep(ts, i);
      MaskRankMonotone(ts, i + 1, j);
    }
  }

  /**
   * Two different tiles that both ask for a mask have different ranks, the
   * earlier the smaller, and every such rank is below the number of masks.
   * So when the mask file holds as many textures as the table asks for,
   * every such tile gets a texture of its own.
   */
  lemma MaskRanksDistinct(ts: seq<Tile>, i: nat, j: nat)
    requires i < j < |ts| && HasMask(ts[i].flag)
    ensures MaskRank(ts, i) < MaskRank(ts, j)
  {
    MaskRankStep(ts, i);
    MaskRankMonotone(ts, i + 1, j);
  }

  lemma MaskRankBelowCount(ts: seq<Tile>, i: nat)
    requires i < |ts| && HasMask(ts[i].flag)
    ensures MaskRank(ts, i) < MaskCount(ts)
  {
    MaskRankStep(ts, i);
    MaskRankMonotone(ts, i + 1, |ts|);
    MaskRankAll(ts);
  }

  /**
   * Base tile t after `LoadSpecularMasks` with a complete mask buffer: a
   * tile that asks for a mask takes mask `rank` if there is one and is made
   * opaque otherwise; then the lights bit (4) is dropped unless lights are
   * enabled, and the specular bit (2) is dropped and the opaque bit set
   * unless specular reflection is enabled. The masks on `0xFB` and `0xFD`
   * also clear every bit above the low byte.
   */
  function SpecularTile(t: Tile, rank: nat, specbuf: seq<Ptr>, lights: bool, specular: bool): (r: Tile)
    ensures r.tex == t.tex && r.subtile == t.subtile && r.ofs == t.ofs
    ensures HasMask(t.flag) && rank < |specbuf| ==> r.ltex == Handle(specbuf[rank])
    ensures !(HasMask(t.flag) && rank < |specbuf|) ==> r.ltex == t.ltex
  {
    var masked := HasMask(t.flag);
    var ltex := if masked && rank < |specbuf| then Handle(specbuf[rank]) else t.ltex;
    var f0 := if masked && rank >= |specbuf| then 1 else t.flag;
    var f1 := if lights then f0 else f0 & 0xFB;
    var f2 := if specular then f1 else (f1 & 0xFD) | 1;
    t.(ltex := ltex, flag := f2)
  }

  /**
   * The flag bits `SpecularTile` leaves: no lights bit unless lights are
   * enabled, no specular bit and the opaque bit unless specular reflection
   * is, and otherwise the old flag, or 1 for a tile left without a mask.
   */
  lemma SpecularFlags(t: Tile, rank: nat, specbuf: seq<Ptr>, lights: bool, specular: bool)
    ensures var r := SpecularTile(t, rank, specbuf, lights, specular);
      (!lights ==> r.flag & 4 == 0) &&
      (!specular ==> r.flag & 2 == 0 && r.flag & 1 == 1) &&
      (lights && specular ==> r.flag == if HasMask(t.flag) && rank >= |specbuf| then 1 else t.flag)
  {
  }

  /**
   * Only whether the rank is within the buffer, and the texture there,
   * matter: a position clamped to the buffer length gives the same tile.
   */
  lemma SpecularClamp(t: Tile, rank: nat, n: nat, specbuf: seq<Ptr>, lights: bool, specular: bool)
    requires n == if rank < |specbuf| then rank else |specbuf|
    ensures SpecularTile(t, n, specbuf, lights, specular) == SpecularTile(t, rank, specbuf, lights, specular)
  {
  }

  /**
   * When the mask buffer holds a texture for every tile of `ts` that asks
   * for one, no such tile is made opaque for lack of a mask and no two of
   * them share a mask texture.
   */
  lemma MasksSuffice(ts: seq<Tile>, specbuf: seq<Ptr>, lights: bool, specular: bool, i: nat, j: nat)
    requires |specbuf| == MaskCount(ts)
    requires i < j < |ts| && HasMask(ts[i].flag) && HasMask(ts[j].flag)
    ensures MaskRank(ts, i) < |specbuf| && MaskRank(ts, j) < |specbuf|
    ensures SpecularTile(ts[i], MaskRank(ts, i), specbuf, lights, specular).ltex == Handle(specbuf[MaskRank(ts, i)])
    ensures SpecularTile(ts[j], MaskRank(ts, j), specbuf, lights, specular).ltex == Handle(specbuf[MaskRank(ts, j)])
    ensures MaskRank(ts, i) != MaskRank(ts, j)
  {
    MaskRankBelowCount(ts, i);
    MaskRankBelowCount(ts, j);
    MaskRanksDistinct(ts, i, j);
  }

  /**
   * The base level `LoadTextures` settles on when only n surface textures
   * could be loaded: the highest level not above l whose patches all have a
   * texture.
   */
  function FittingLevel(l: nat, n: nat): (r: nat)
    requires l <= 8
    ensures r <= l && PATCHIDX[r] <= n
    ensures forall m :: r < m <= l ==> PATCHIDX[m] > n
  {
    if PATCHIDX[l] <= n then l else FittingLevel(l - 1, n)
  }
}
