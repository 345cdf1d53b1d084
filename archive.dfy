/**
 * Addressing of a tile in a texture archive: the byte offset that the
 * loader passes to the archive reader. `long` is a 32-bit signed integer on
 * the platform the loader is built for, so products wrap around.
 */
module Archive {
  import opened TileTypes

  /** Size in bytes of one texture block in an old-style (pre-versioned) archive. */
  const TILESIZE: int := 32896

  /** Conversion to a 32-bit two's-complement `long`. */
  function Long(x: int): (r: int)
    ensures -0x8000_0000 <= r < 0x8000_0000
    ensures -0x8000_0000 <= x < 0x8000_0000 ==> r == x
    ensures (r - x) % 0x1_0000_0000 == 0
  {
    (x + 0x8000_0000) % 0x1_0000_0000 - 0x8000_0000
  }

  /**
   * The archive offset of table-of-contents index `idx` for a tile whose
   * flags are `flag`: a block number scaled by TILESIZE when the tile comes
   * from an old-style archive (bit 0x40), the byte offset itself otherwise.
   */
  function ArchiveOffset(idx: Dword, flag: bv32): int
  {
    if flag & OLD_INDEX != 0 then Long(Long(idx) * TILESIZE) else Long(idx)
  }

  /**
   * For every archive smaller than 2 GiB the offset is exact: block number
   * times block size for old-style tiles, the index itself otherwise.
   */
  lemma OffsetExact(idx: Dword, flag: bv32)
    requires flag & OLD_INDEX != 0 ==> idx <= 65280
    requires flag & OLD_INDEX == 0 ==> idx < 0x8000_0000
    ensures ArchiveOffset(idx, flag) == if flag & OLD_INDEX != 0 then idx * TILESIZE else idx
    ensures ArchiveOffset(idx, flag) >= 0
  {
    if flag & OLD_INDEX != 0 {
      assert Long(idx) == idx;
      assert 0 <= idx * TILESIZE <= 65280 * TILESIZE < 0x8000_0000;
    }
  }

  /** One block beyond 2 GiB the old-style offset wraps to a negative value. */
  lemma OldStyleOffsetWraps(flag: bv32)
    requires flag & OLD_INDEX != 0
    ensures ArchiveOffset(65281, flag) < 0
  {
    assert Long(65281) == 65281;
    assert 65281 * TILESIZE == 2147483776;
  }
}
