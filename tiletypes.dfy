/**
 * Value types shared by the tile manager and the tile buffer: the 32-bit
 * words of the archive table of contents, the tagged texture reference that
 * stands for the `tex`/`ltex` pointer fields, and the tile descriptor.
 */
module TileTypes {

  datatype Option<T> = None | Some(value: T)

  /** An unsigned 32-bit word (DWORD). */
  type Dword = x: int | 0 <= x < 0x1_0000_0000

  /** A non-null pointer value, seen as a DWORD. */
  type Ptr = x: Dword | x != 0 witness 1

  /** The "no tile" sentinel, (DWORD)-1. */
  const NOTILE: Dword := 0xFFFF_FFFF

  /** Highest patch resolution level the meshes exist for. */
  const SURF_MAX_PATCHLEVEL: nat := 14

  /** Capability and state bits of `TILEDESC::flag`. */
  const NOT_LOADED: bv32 := 0x80
  const OLD_INDEX: bv32 := 0x40

  /**
   * The contents of a `tex` or `ltex` pointer field. Before a tile is loaded
   * the field holds an archive index cast to a pointer (`Index`); after
   * loading it holds a texture (`Handle`). Both are pointer bits, so an index
   * of 0 is the null pointer.
   */
  datatype TexRef = Null | Index(i: Ptr) | Handle(h: Ptr)

  /** `(LPDIRECT3DTEXTURE9)i`: an archive index stored in a pointer field. */
  function IndexRef(i: Dword): (r: TexRef)
    ensures r.Null? <==> i == 0
    ensures !r.Handle?
  {
    if i == 0 then Null else Index(i)
  }

  /** `(DWORD)p`: the pointer field read back as an archive index. */
  function SlotIndex(r: TexRef): Dword
  {
    match r
    case Null => 0
    case Index(i) => i
    case Handle(h) => h
  }

  /** Reading back an index stored by `IndexRef` gives the same index. */
  lemma IndexRoundTrip(i: Dword)
    ensures SlotIndex(IndexRef(i)) == i
  {
  }

  /** Does `flag` ask for a specular mask or a night-light texture? */
  predicate HasMask(flag: bv32)
  {
    (flag & 3) == 3 || (flag & 4) != 0
  }

  /** The four child links of a tile, in quadrant order 0..3. */
  type Subtiles = s: seq<Option<nat>> | |s| == 4 witness [None, None, None, None]

  const NoSubtiles: Subtiles := [None, None, None, None]

  /**
   * `TILEDESC`: one quadtree node. A pool node's child links are the slot
   * indices of its children in the tile buffer; `ofs` is the node's own slot.
   */
  datatype Tile = Tile(tex: TexRef, ltex: TexRef, flag: bv32, subtile: Subtiles, ofs: nat)

  /** The node `AddTile` hands out: all fields zero except its own slot index. */
  function ZeroTile(ofs: nat): (t: Tile)
    ensures t.tex == Null && t.ltex == Null && t.flag == 0 && t.ofs == ofs
    ensures forall k :: 0 <= k < 4 ==> t.subtile[k].None?
  {
    Tile(Null, Null, 0, NoSubtiles, ofs)
  }
}
