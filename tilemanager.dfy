/**
 * The tile manager of one planet: the base tiles of levels 1..8 in
 * `tiledesc`, the shared tile buffer holding the nodes of levels 9..14, and
 * the start-up steps that fill them — the mask flags, the base textures, the
 * tree read from the table of contents and the preloaded tile textures.
 *
 * Files are not read here: each loader takes what was read as a parameter
 * (the mask table, the table of contents, the textures the texture manager
 * returned). `released` records every texture given back with `ReleaseTex`.
 */
module TileManagers {
  import opened TileTypes
  import opened PatchTables
  import opened TileArena
  import opened TileBuffers
  import opened Toc
  import opened TocBuild
  import opened BaseTable
  import opened Forests
  import opened BaseLoad
  import Preload

  /**
   * The mask table of `_lmask.bin` as read (either file format): the lowest
   * level it covers and one flag word per covered base tile from there on.
   */
  datatype MaskTable = MaskTable(minres: int, tflag: seq<Word>)

  /** The table names a level with a `patchidx` entry and covers every base tile it claims. */
  predicate MaskTableFits(m: MaskTable, baselvl: int)
    requires 0 <= baselvl <= 8
  {
    1 <= m.minres <= 9 && PATCHIDX[baselvl] - PATCHIDX[m.minres - 1] <= |m.tflag|
  }

  /**
   * The table of contents `_tile.bin` as read: whether it starts with the
   * "PLTS" header, its entries, and the orders `qsort` leaves the surface
   * and mask lists in.
   */
  datatype TocFile = TocFile(plts: bool, tfs: seq<TileFileSpec>, sperm: seq<nat>, mperm: seq<nat>)

  /**
   * Entries name entries of the table, the first 364 are the level-8 tiles,
   * and when positions are converted the sort orders are those of `qsort`.
   */
  ghost predicate TocFits(f: TocFile, preload: bool)
  {
    TocClosed(f.tfs) && 364 <= |f.tfs| &&
    (preload && f.plts ==> SortedOrder(f.tfs, Surface, f.sperm) && SortedOrder(f.tfs, Mask, f.mperm))
  }

  // ---------------------------------------------------------------------
  // The loops over the base tiles in use, on the array itself

  /** Makes the first np base tiles opaque without lights (flag 1). */
  method StampOpaque(tiles: array<Tile>, np: nat)
    requires np <= tiles.Length
    modifies tiles
    ensures forall k :: 0 <= k < tiles.Length ==>
      tiles[k] == if k < np then old(tiles[k]).(flag := 1) else old(tiles[k])
  {
    var i := 0;
    while i < np
      invariant 0 <= i <= np
      invariant forall k :: 0 <= k < tiles.Length ==>
        tiles[k] == if k < i then old(tiles[k]).(flag := 1) else old(tiles[k])
    {
      tiles[i] := tiles[i].(flag := 1);
      i := i + 1;
    }
  }

  /**
   * Stamps the first np base tiles from a mask table covering the tiles from
   * `start` on, and counts the tiles whose new flags ask for a mask.
   */
  method StampFlags(tiles: array<Tile>, np: nat, start: nat, tflag: seq<Word>) returns (nmask: nat)
    requires np <= tiles.Length && np - start <= |tflag|
    modifies tiles
    ensures forall k :: 0 <= k < tiles.Length ==>
      tiles[k] == if k < np then old(tiles[k]).(flag := PatchFlag(k, start, tflag)) else old(tiles[k])
    ensures nmask == MaskCount(tiles[..np])
  {
    ghost var t0 := tiles[..];
    var i, idx := 0, 0;
    nmask := 0;
    while i < np
      invariant 0 <= i <= np
      invariant idx == if i <= start then 0 else i - start
      invariant forall k :: 0 <= k < i ==> tiles[k] == t0[k].(flag := PatchFlag(k, start, tflag))
      invariant forall k :: i <= k < tiles.Length ==> tiles[k] == t0[k]
      invariant nmask == MaskCount(tiles[..i])
    {
      ghost var before := tiles[..i];
      var flag: bv32 := 1;
      if i >= start {
        flag := LowByte(tflag[idx]);
        idx := idx + 1;
      }
      tiles[i] := tiles[i].(flag := flag);
      if i >= start && HasMask(flag) {
        nmask := nmask + 1;
      }
      assert tiles[..i + 1] == before + [tiles[i]];
      assert (before + [tiles[i]])[..i] == before;
      i := i + 1;
    }
  }

  /**
   * Hands the mask textures `specbuf` to the first np base tiles in tile
   * order, and clears the bits the global switches turn off.
   */
  method HandOutMasks(tiles: array<Tile>, np: nat, specbuf: seq<Ptr>, lights: bool, specular: bool)
    requires np <= tiles.Length
    modifies tiles
    ensures forall k :: 0 <= k < tiles.Length ==>
      tiles[k] == if k < np then SpecularTile(old(tiles[k]), MaskRank(old(tiles[..np]), k), specbuf, lights, specular)
                  else old(tiles[k])
  {
    ghost var t0 := tiles[..np];
    var i, n := 0, 0;
    while i < np
      invariant 0 <= i <= np && n <= |specbuf|
      invariant n == if MaskRank(t0, i) < |specbuf| then MaskRank(t0, i) else |specbuf|
      invariant forall k :: 0 <= k < tiles.Length ==>
        tiles[k] == if k < i then SpecularTile(t0[k], MaskRank(t0, k), specbuf, lights, specular) else old(tiles[k])
    {
      var t := tiles[i];
      SpecularClamp(t, MaskRank(t0, i), n, specbuf, lights, specular);
      tiles[i] := SpecularTile(t, n, specbuf, lights, specular);
      if HasMask(t.flag) && n < |specbuf| {
        n := n + 1;
      }
      MaskRankStep(t0, i);
      i := i + 1;
    }
  }

  /** Gives base tile i surface texture i, for every texture in `texbuf`. */
  method SetTextures(tiles: array<Tile>, texbuf: seq<Ptr>)
    requires |texbuf| <= tiles.Length
    modifies tiles
    ensures forall k :: 0 <= k < tiles.Length ==>
      tiles[k] == if k < |texbuf| then old(tiles[k]).(tex := Handle(texbuf[k])) else old(tiles[k])
  {
    var i := 0;
    while i < |texbuf|
      invariant 0 <= i <= |texbuf|
      invariant forall k :: 0 <= k < tiles.Length ==>
        tiles[k] == if k < i then old(tiles[k]).(tex := Handle(texbuf[k])) else old(tiles[k])
    {
      tiles[i] := tiles[i].(tex := Handle(texbuf[i]));
      i := i + 1;
    }
  }

  /**
   * The level-lowering loop of `LoadTextures`: from level l down until the
   * n textures loaded cover every base tile of the level.
   */
  method FitBaseLevel(l: nat, n: nat) returns (lvl: nat)
    requires 1 <= l <= 8 && 1 <= n
    ensures lvl == FittingLevel(l, n) && 1 <= lvl
  {
    lvl := l;
    while n < PATCHIDX[lvl]
      invariant 1 <= lvl <= l
      invariant FittingLevel(lvl, n) == FittingLevel(l, n)
      decreases lvl
    {
      lvl := lvl - 1;
    }
  }

  /**
   * The release loop of `LoadTextures`: the loaded textures from position
   * `keep` on are released one by one, from the last down.
   */
  method ReleaseSurplus(loaded: seq<Ptr>, keep: nat, released: multiset<Ptr>) returns (m: nat, rel: multiset<Ptr>)
    requires keep <= |loaded|
    ensures m == keep && rel == released + multiset(loaded[keep..])
  {
    m, rel := |loaded|, released;
    assert loaded[m..] == [];
    while m > keep
      invariant keep <= m <= |loaded|
      invariant rel == released + multiset(loaded[m..])
    {
      m := m - 1;
      assert loaded[m..] == [loaded[m]] + loaded[m + 1..];
      rel := rel + multiset{loaded[m]};
    }
  }

  /** The scan of `AddSubtileData` for a child number (:252-253). */
  method HasChildren(t: TileFileSpec) returns (bSubtiles: bool)
    ensures bSubtiles <==> HasSubRefs(t)
  {
    bSubtiles := false;
    var j := 0;
    while j < 4
      invariant 0 <= j <= 4 && !bSubtiles
      invariant forall k :: 0 <= k < j ==> t.subidx[k] == 0
    {
      if t.subidx[j] != 0 {
        bSubtiles := true;
        break;
      }
      j := j + 1;
    }
  }

  class TileManager {
    /** The shared node pool and request ring. */
    const tilebuf: TileBuffer
    /** The base tiles of levels 1..8, `patchidx[maxbaselvl]` of them in use. */
    const tiledesc: array<Tile>
    /** The global switches for specular reflection, night lights and tile preloading. */
    const bGlobalSpecular: bool
    const bGlobalLights: bool
    const bPreloadTile: bool
    const objname: string

    var maxlvl: int
    var maxbaselvl: int
    var ntex: nat
    var nhitex: nat
    var nhispec: nat
    var nmask: nat
    var tilever: int
    /** Count of table indices that named no loaded texture (a file-level counter in the source). */
    var tmissing: nat
    var bNoTextures: bool
    /** The base surface textures and the base mask textures held. */
    var texbuf: seq<Ptr>
    var specbuf: seq<Ptr>
    /** Every texture released so far. */
    var released: multiset<Ptr>

    /** The levels in use fit the base table; the pool's own bookkeeping is `tilebuf.PoolValid()`. */
    ghost predicate Valid()
      reads this`maxlvl, this`maxbaselvl
    {
      1 <= maxlvl <= SURF_MAX_PATCHLEVEL &&
      maxbaselvl == (if maxlvl < 8 then maxlvl else 8) && PATCHIDX[maxbaselvl] <= tiledesc.Length
    }

    /** The settings `AddSubtileData` builds nodes with. */
    function Cfg(): (cfg: TocConfig)
      reads this`maxlvl, this`tilever
      ensures cfg.maxlvl == maxlvl && cfg.tilever == tilever && (cfg.masks <==> bGlobalSpecular || bGlobalLights)
    {
      TocConfig(maxlvl, tilever, bGlobalSpecular || bGlobalLights)
    }

    /**
     * A manager for a planet rendered up to level `lvl`, with its base table
     * of `patchidx[min(lvl, 8)]` zeroed tiles.
     */
    constructor (buffer: TileBuffer, lvl: int, specular: bool, lights: bool, preload: bool, name: string)
      requires buffer.PoolValid() && 1 <= lvl <= SURF_MAX_PATCHLEVEL
      ensures Valid() && tilebuf.PoolValid() && Forest(tilebuf.buf, tiledesc[..])
      ensures tilebuf == buffer && fresh(tiledesc) && maxlvl == lvl && tiledesc.Length == PATCHIDX[maxbaselvl]
      ensures forall i :: 0 <= i < tiledesc.Length ==> tiledesc[i] == ZeroTile(0)
      ensures ntex == 0 && nhitex == 0 && nmask == 0 && nhispec == 0 && !bNoTextures
      ensures bGlobalSpecular == specular && bGlobalLights == lights && bPreloadTile == preload
    {
      tilebuf := buffer;
      bGlobalSpecular, bGlobalLights, bPreloadTile, objname := specular, lights, preload, name;
      maxlvl := lvl;
      var base := if lvl < 8 then lvl else 8;
      maxbaselvl := base;
      tiledesc := new Tile[PATCHIDX[base]](_ => ZeroTile(0));
      ntex, nhitex, nmask, nhispec, tilever, tmissing := 0, 0, 0, 0, 0, 0;
      bNoTextures := false;
      texbuf, specbuf, released := [], [], multiset{};
      new;
      EmptyForest(tilebuf.buf, tiledesc[..]);
    }

    // -------------------------------------------------------------------
    // Base-table flags and textures

    /**
     * Stamps the flags of the base tiles in use from the mask table (:103-160).
     * Without masks or lights enabled, or without a table, every tile is
     * made opaque (flag 1). Otherwise tiles below the table's first level
     * get 1 and the others the low byte of their table word, and `nmask`
     * counts the tiles that ask for a mask.
     */
    method LoadPatchData(file: Option<MaskTable>) returns (ok: bool)
      requires Valid()
      requires file.Some? ==> MaskTableFits(file.value, maxbaselvl)
      modifies tiledesc, this`nmask
      ensures Valid()
      ensures ok <==> (bGlobalSpecular || bGlobalLights) && file.Some?
      ensures forall i :: 0 <= i < tiledesc.Length ==> tiledesc[i] == old(tiledesc[i]).(flag :=
        if i >= PATCHIDX[maxbaselvl] then old(tiledesc[i]).flag
        else if ok then PatchFlag(i, PATCHIDX[file.value.minres - 1], file.value.tflag)
        else 1)
      ensures nmask == if ok then MaskCount(tiledesc[..PATCHIDX[maxbaselvl]]) else 0
    {
      var np := PATCHIDX[maxbaselvl];
      nmask := 0;
      if !(bGlobalSpecular || bGlobalLights) || file.None? {
        StampOpaque(tiledesc, np);
        ok := false;
      } else {
        nmask := StampFlags(tiledesc, np, PATCHIDX[file.value.minres - 1], file.value.tflag);
        ok := true;
      }
    }

    /**
     * Hands the mask textures `loaded` (what the texture manager read from
     * `_lmask.tex`, at most `nmask`) to the base tiles (:405-443). A short or
     * empty file disables masks: `nmask` drops to 0 and every tile in use is
     * made opaque. A complete one gives each tile that asks for a mask the
     * next texture, in tile order, and then clears the lights and specular
     * bits the global switches turn off.
     */
    method LoadSpecularMasks(loaded: seq<Ptr>)
      requires Valid() && |loaded| <= nmask
      modifies tiledesc, this`nmask, this`specbuf
      ensures Valid()
      ensures old(nmask) == 0 ==> nmask == 0 && specbuf == old(specbuf) && tiledesc[..] == old(tiledesc[..])
      ensures old(nmask) > 0 && |loaded| < old(nmask) ==>
        nmask == 0 && specbuf == [] &&
        forall i :: 0 <= i < tiledesc.Length ==>
          tiledesc[i] == if i < PATCHIDX[maxbaselvl] then old(tiledesc[i]).(flag := 1) else old(tiledesc[i])
      ensures old(nmask) > 0 && |loaded| == old(nmask) ==>
        nmask == old(nmask) && specbuf == loaded &&
        forall i :: 0 <= i < tiledesc.Length ==>
          tiledesc[i] == if i < PATCHIDX[maxbaselvl]
                         then SpecularTile(old(tiledesc[i]), MaskRank(old(tiledesc[..PATCHIDX[maxbaselvl]]), i),
                                           loaded, bGlobalLights, bGlobalSpecular)
                         else old(tiledesc[i])
    {
      var np := PATCHIDX[maxbaselvl];
      if nmask > 0 {
        if |loaded| < nmask {
          specbuf := [];
          nmask := 0;
          StampOpaque(tiledesc, np);
        } else {
          specbuf := loaded;
          HandOutMasks(tiledesc, np, specbuf, bGlobalLights, bGlobalSpecular);
        }
      }
    }

    /**
     * Gives the base tiles in use their surface textures (:284-310, without
     * the preload step). `loaded` is what the texture manager read, at most
     * one per tile in use. When nothing was read the planet has no textures.
     * Otherwise the base level drops until every tile in use has a texture
     * (and the highest level with it), the textures beyond the last tile in
     * use are released, and tile i gets texture i.
     */
    method LoadBaseTextures(loaded: seq<Ptr>)
      requires Valid() && |loaded| <= PATCHIDX[maxbaselvl]
      modifies tiledesc, this`ntex, this`maxlvl, this`maxbaselvl, this`texbuf, this`bNoTextures, this`released
      ensures Valid()
      ensures |loaded| == 0 ==>
        ntex == 0 && texbuf == [] && bNoTextures && tiledesc[..] == old(tiledesc[..]) &&
        maxlvl == old(maxlvl) && maxbaselvl == old(maxbaselvl) && released == old(released)
      ensures |loaded| > 0 ==>
        maxbaselvl == FittingLevel(old(maxbaselvl), |loaded|) &&
        maxlvl == (if maxbaselvl < old(maxbaselvl) then maxbaselvl else old(maxlvl)) &&
        ntex == PATCHIDX[maxbaselvl] && texbuf == loaded[..ntex] &&
        released == old(released) + multiset(loaded[ntex..]) && bNoTextures == old(bNoTextures) &&
        forall i :: 0 <= i < tiledesc.Length ==>
          tiledesc[i] == if i < ntex then old(tiledesc[i]).(tex := Handle(loaded[i])) else old(tiledesc[i])
    {
      var n := |loaded|;
      if n > 0 {
        var lvl := FitBaseLevel(maxbaselvl, n);
        if lvl < maxbaselvl {
          PatchIdxIncreasing(lvl, maxbaselvl);
        }
        var m, rel := ReleaseSurplus(loaded, PATCHIDX[lvl], released);
        SetTextures(tiledesc, loaded[..m]);
        if lvl < maxbaselvl {
          maxlvl := lvl;
        }
        maxbaselvl, ntex, released, texbuf := lvl, m, rel, loaded[..m];
      } else {
        ntex, texbuf := 0, [];
        bNoTextures := true;
      }
    }

    /**
     * `PreloadTileTextures` (:321-366) with the surface and mask textures the
     * texture manager returned from the two tile archives (`loaded` and
     * `masks`): the trees below the 364 level-8 tiles take their textures in
     * preorder, node before children, and every texture no node took is
     * released.
     */
    method PreloadTileTextures(loaded: seq<Ptr>, masks: seq<Ptr>)
      requires tilebuf.PoolValid() && Forest(tilebuf.buf, tiledesc[..]) && TILE8 + NTILE8 <= tiledesc.Length
      modifies tilebuf`buf, this`tmissing, this`released
      ensures tilebuf.PoolValid() && Forest(tilebuf.buf, tiledesc[..])
      ensures var r := Preload.PreloadPass(old(tilebuf.buf), tiledesc[..], BASE_HEIGHT, loaded, masks, old(tmissing));
        tilebuf.buf == r.a && tmissing == r.st.miss &&
        released == old(released) + Preload.Held(r.st.tb) + Preload.Held(r.st.mb)
    {
      ghost var d := tiledesc[..];
      Preload.ForestGrove(tilebuf.buf, d);
      Preload.PreloadForest(tilebuf.buf, d, loaded, masks, tmissing);
      var a, miss, rel := Preload.PreloadAll(tilebuf.buf, tiledesc[..], BASE_HEIGHT, loaded, masks, tmissing, released);
      tilebuf.Refill(a);
      tmissing, released := miss, rel;
      assert tiledesc[..] == d;
    }

    /**
     * `LoadTextures` (:283-315) with what the texture manager returned from
     * the base archive (`loaded`) and, when tiles are preloaded and the table
     * of contents named any tile texture, from the two tile archives, which
     * deliver at most the `nhitex` and `nhispec` textures asked for.
     */
    method LoadTextures(loaded: seq<Ptr>, tiles: seq<Ptr>, masks: seq<Ptr>)
      requires Valid() && |loaded| <= PATCHIDX[maxbaselvl]
      requires tilebuf.PoolValid() && Forest(tilebuf.buf, tiledesc[..])
      requires bPreloadTile && nhitex > 0 ==> TILE8 + NTILE8 <= tiledesc.Length && |tiles| <= nhitex && |masks| <= nhispec
      modifies tiledesc, this`ntex, this`maxlvl, this`maxbaselvl, this`texbuf, this`bNoTextures, this`released
      modifies tilebuf`buf, this`tmissing
      ensures Valid() && tilebuf.PoolValid() && Forest(tilebuf.buf, tiledesc[..])
      ensures maxbaselvl == if |loaded| > 0 then FittingLevel(old(maxbaselvl), |loaded|) else old(maxbaselvl)
      ensures ntex <= |loaded| && (ntex == PATCHIDX[maxbaselvl] || (|loaded| == 0 && ntex == 0 && bNoTextures))
      ensures forall i :: 0 <= i < tiledesc.Length ==>
        tiledesc[i] == if i < ntex then old(tiledesc[i]).(tex := Handle(loaded[i])) else old(tiledesc[i])
      ensures !(bPreloadTile && nhitex > 0) ==> tilebuf.buf == old(tilebuf.buf) && tmissing == old(tmissing)
      ensures bPreloadTile && nhitex > 0 ==>
        var r := Preload.PreloadPass(old(tilebuf.buf), tiledesc[..], BASE_HEIGHT, tiles, masks, old(tmissing));
        tilebuf.buf == r.a && tmissing == r.st.miss
    {
      ghost var d0 := tiledesc[..];
      LoadBaseTextures(loaded);
      ForestLinks(tilebuf.buf, d0, tiledesc[..]);
      if bPreloadTile && nhitex > 0 {
        PreloadTileTextures(tiles, masks);
      }
    }

    // -------------------------------------------------------------------
    // The tree below level 8, from the table of contents

    /**
     * `LoadTileData` (:164-235) on the table of contents as read, or `None`
     * when there is none. Nothing happens when the planet is not rendered
     * beyond level 8 or there is no table. Otherwise the archive's version
     * is taken from the header, the positions are converted to ranks when
     * tiles are preloaded (after which the archive counts as old-style),
     * and the trees the table names below every level-8 tile are built.
     */
    method LoadTileData(toc: Option<TocFile>) returns (ok: bool, ghost tbl: seq<TileFileSpec>)
      requires Valid() && tilebuf.PoolValid() && Forest(tilebuf.buf, tiledesc[..])
      requires toc.Some? ==> TocFits(toc.value, bPreloadTile)
      modifies tiledesc, tilebuf`buf, tilebuf`nbuf, tilebuf`nused, tilebuf`last, this`nhitex, this`nhispec, this`tilever
      ensures Valid() && tilebuf.PoolValid() && Forest(tilebuf.buf, tiledesc[..]) && Extends(old(tilebuf.buf), tilebuf.buf)
      ensures ok <==> maxlvl > 8 && toc.Some?
      ensures !ok ==>
        tilever == old(tilever) && tilebuf.buf == old(tilebuf.buf) && tiledesc[..] == old(tiledesc[..]) &&
        nhitex == old(nhitex) && nhispec == old(nhispec)
      ensures ok ==> tilever == if toc.value.plts && !bPreloadTile then 1 else 0
      ensures ok ==> TocClosed(tbl) && NTILE8 <= |tbl|
      ensures ok && bPreloadTile && toc.value.plts ==>
        exists mid :: RankedBy(toc.value.tfs, mid, Surface, toc.value.sperm) && RankedBy(mid, tbl, Mask, toc.value.mperm)
      ensures ok && !(bPreloadTile && toc.value.plts) ==> tbl == toc.value.tfs
      ensures ok ==> BaseLoaded(old(tilebuf.buf), tilebuf.buf, old(tiledesc[..]), tiledesc[..], tbl, Cfg())
      ensures ok ==>
        nhitex == old(nhitex) + BaseCount(tbl, Cfg(), NTILE8).hitex &&
        nhispec == old(nhispec) + BaseCount(tbl, Cfg(), NTILE8).hispec
    {
      ok := false;
      tbl := [];
      if maxlvl <= 8 || toc.None? {
        return;
      }
      var f := toc.value;
      tilever := if f.plts then 1 else 0;
      var t := f.tfs;
      if bPreloadTile && tilever >= 1 {
        var arr := new TileFileSpec[|t|](k requires 0 <= k < |t| => t[k]);
        assert arr[..] == t;
        ConvertOffsets(arr, f.sperm, f.mperm);
        t := arr[..];
        tilever := 0;
      }
      tbl := t;
      LoadBaseTrees(t);
      ok := true;
    }

    /** The loop over the level-8 tiles and their four child numbers (:223-228). */
    method LoadBaseTrees(tbl: seq<TileFileSpec>)
      requires Valid() && tilebuf.PoolValid() && Forest(tilebuf.buf, tiledesc[..]) && maxlvl > 8
      requires TocClosed(tbl) && NTILE8 <= |tbl|
      modifies tiledesc, tilebuf`buf, tilebuf`nbuf, tilebuf`nused, tilebuf`last, this`nhitex, this`nhispec
      ensures Valid() && tilebuf.PoolValid() && Forest(tilebuf.buf, tiledesc[..])
      ensures BaseLoaded(old(tilebuf.buf), tilebuf.buf, old(tiledesc[..]), tiledesc[..], tbl, Cfg())
      ensures nhitex == old(nhitex) + BaseCount(tbl, Cfg(), NTILE8).hitex
      ensures nhispec == old(nhispec) + BaseCount(tbl, Cfg(), NTILE8).hispec
    {
      var cfg := Cfg();
      ghost var a0, d0 := tilebuf.buf, tiledesc[..];
      BaseLoopStart(a0, d0, tbl, cfg);
      var i := 0;
      while i < NTILE8
        invariant 0 <= i <= NTILE8 && Valid() && tilebuf.PoolValid() && Cfg() == cfg
        invariant BaseLoop(a0, tilebuf.buf, d0, tiledesc[..], tbl, cfg, i, 0)
        invariant nhitex == old(nhitex) + BaseCount(tbl, cfg, i).hitex
        invariant nhispec == old(nhispec) + BaseCount(tbl, cfg, i).hispec
      {
        LoadBaseTile(tbl, i, a0, d0);
        BaseLoopNext(a0, tilebuf.buf, d0, tiledesc[..], tbl, cfg, i);
        i := i + 1;
      }
      BaseLoopEnd(a0, tilebuf.buf, d0, tiledesc[..], tbl, cfg);
    }

    /** The inner loop of the level-8 loop: the four child numbers of level-8 tile i (:226-228). */
    method LoadBaseTile(tbl: seq<TileFileSpec>, i: nat, ghost a0: Arena, ghost d0: seq<Tile>)
      requires Valid() && tilebuf.PoolValid() && maxlvl > 8 && i < NTILE8
      requires TocClosed(tbl) && NTILE8 <= |tbl| && BaseLoop(a0, tilebuf.buf, d0, tiledesc[..], tbl, Cfg(), i, 0)
      modifies tiledesc, tilebuf`buf, tilebuf`nbuf, tilebuf`nused, tilebuf`last, this`nhitex, this`nhispec
      ensures Valid() && tilebuf.PoolValid() && BaseLoop(a0, tilebuf.buf, d0, tiledesc[..], tbl, Cfg(), i, 4)
      ensures nhitex == old(nhitex) + TileCount(tbl, Cfg(), i, 4).hitex
      ensures nhispec == old(nhispec) + TileCount(tbl, Cfg(), i, 4).hispec
    {
      var cfg := Cfg();
      var j := 0;
      while j < 4
        invariant 0 <= j <= 4 && Valid() && tilebuf.PoolValid() && Cfg() == cfg
        invariant BaseLoop(a0, tilebuf.buf, d0, tiledesc[..], tbl, cfg, i, j)
        invariant nhitex == old(nhitex) + TileCount(tbl, cfg, i, j).hitex
        invariant nhispec == old(nhispec) + TileCount(tbl, cfg, i, j).hispec
      {
        LoadBaseChild(tbl, i, j, a0, d0);
        j := j + 1;
      }
    }

    /** One turn of the level-8 loop: child j of level-8 tile i, when the table names one. */
    method LoadBaseChild(tbl: seq<TileFileSpec>, i: nat, j: nat, ghost a0: Arena, ghost d0: seq<Tile>)
      requires Valid() && tilebuf.PoolValid() && maxlvl > 8 && i < NTILE8 && j < 4
      requires TocClosed(tbl) && NTILE8 <= |tbl| && BaseLoop(a0, tilebuf.buf, d0, tiledesc[..], tbl, Cfg(), i, j)
      modifies tiledesc, tilebuf`buf, tilebuf`nbuf, tilebuf`nused, tilebuf`last, this`nhitex, this`nhispec
      ensures Valid() && tilebuf.PoolValid() && BaseLoop(a0, tilebuf.buf, d0, tiledesc[..], tbl, Cfg(), i, j + 1)
      ensures nhitex == old(nhitex) + PairCount(tbl, Cfg(), i, j).hitex
      ensures nhispec == old(nhispec) + PairCount(tbl, Cfg(), i, j).hispec
    {
      var cfg := Cfg();
      ghost var a, d := tilebuf.buf, tiledesc[..];
      var k := TILE8 + i;
      if tbl[i].subidx[j] != 0 {
        var sub' := AddSubtileData(tiledesc[k].subtile, tbl, i, j, 9);
        assert Cfg() == cfg;
        tiledesc[k] := tiledesc[k].(subtile := sub');
        assert tiledesc[..] == d[k := d[k].(subtile := sub')];
        BaseLoopStep(a0, a, tilebuf.buf, d0, d, tbl, cfg, i, j, sub');
      } else {
        assert d[k := d[k].(subtile := d[k].subtile)] == d;
        BaseLoopStep(a0, a, a, d0, d, tbl, cfg, i, j, d[k].subtile);
      }
    }

    /**
     * `AddSubtileData` (:247-280): builds the node for child `sub` of the
     * tile whose links are `td`, from the entry that entry `idx` names as
     * that child, and recursively its descendants. An entry without flags
     * and without children gets no node and leaves the link alone; one
     * beyond the highest level clears the link. The new nodes use only
     * slots that were empty, every occupied slot keeps its node, and
     * `nhitex`/`nhispec` grow by the nodes (and mask positions) built.
     */
    method AddSubtileData(td: Subtiles, tfs: seq<TileFileSpec>, idx: nat, sub: nat, lvl: int) returns (td': Subtiles)
      requires Valid() && tilebuf.PoolValid() && TocClosed(tfs) && idx < |tfs| && sub < 4 && lvl >= 1
      modifies tilebuf`buf, tilebuf`nbuf, tilebuf`nused, tilebuf`last, this`nhitex, this`nhispec
      decreases Depth(lvl, Cfg()), 4
      ensures Valid() && tilebuf.PoolValid() && Extends(old(tilebuf.buf), tilebuf.buf)
      ensures forall k :: 0 <= k < 4 && k != sub ==> td'[k] == td[k]
      ensures var e := tfs[idx].subidx[sub];
        (Wanted(tfs[e]) ==> Placed(tilebuf.buf, td'[sub], tfs, e, lvl, Cfg())) &&
        (!Wanted(tfs[e]) ==> td' == td && tilebuf.buf == old(tilebuf.buf)) &&
        (Wanted(tfs[e]) && td'[sub].Some? ==>
           lvl <= SURF_MAX_PATCHLEVEL && NodeSound(tilebuf.buf, td'[sub].value, H(lvl)) &&
           FreshTree(old(tilebuf.buf), tilebuf.buf, td'[sub].value, H(lvl))) &&
        nhitex == old(nhitex) + TocCount(tfs, e, lvl, Cfg()).hitex &&
        nhispec == old(nhispec) + TocCount(tfs, e, lvl, Cfg()).hispec &&
        tilebuf.nused == old(tilebuf.nused) + TocCount(tfs, e, lvl, Cfg()).hitex
    {
      var e := tfs[idx].subidx[sub];
      var t := tfs[e];
      var bSubtiles := HasChildren(t);
      td' := td;
      if t.flags != 0 || bSubtiles {
        if lvl <= maxlvl {
          var s := NewNode(tfs, e, lvl, bSubtiles);
          nhitex := nhitex + 1;
          if t.midx != NOTILE {
            nhispec := nhispec + 1;
          }
          td' := td[sub := Some(s)];
        } else {
          td' := td[sub := None];
        }
      }
    }

    /**
     * The wanted branch of `AddSubtileData` at a level that is built: takes
     * a slot, fills it from entry e and builds the children the entry names.
     */
    method NewNode(tfs: seq<TileFileSpec>, e: nat, lvl: int, bSubtiles: bool) returns (s: nat)
      requires Valid() && tilebuf.PoolValid() && TocClosed(tfs) && e < |tfs| && 1 <= lvl <= maxlvl
      requires Wanted(tfs[e]) && (bSubtiles <==> HasSubRefs(tfs[e]))
      modifies tilebuf`buf, tilebuf`nbuf, tilebuf`nused, tilebuf`last, this`nhitex, this`nhispec
      decreases Depth(lvl, Cfg()), 3
      ensures Valid() && tilebuf.PoolValid()
      ensures NodeBuilt(old(tilebuf.buf), tilebuf.buf, s, tfs, e, lvl, Cfg())
      ensures nhitex == old(nhitex) + ChildCount(tfs, tfs[e], lvl, Cfg(), 4).hitex
      ensures nhispec == old(nhispec) + ChildCount(tfs, tfs[e], lvl, Cfg(), 4).hispec
      ensures tilebuf.nused == old(tilebuf.nused) + 1 + ChildCount(tfs, tfs[e], lvl, Cfg(), 4).hitex
    {
      var t := tfs[e];
      var cfg := Cfg();
      ghost var a0 := tilebuf.buf;
      s := StartNode(tfs, e, lvl);
      assert t in tfs;
      if bSubtiles {
        AddChildren(s, tfs, e, lvl, a0);
        assert Cfg() == cfg;
      } else {
        ChildrenNone(a0, tilebuf.buf, s, tfs, e, lvl, cfg);
        NoChildCount(tfs, t, lvl, cfg, 4);
      }
      ChildrenEnd(a0, tilebuf.buf, s, tfs, e, lvl, cfg);
    }

    /** Takes a slot and fills it from entry e, without children yet. */
    method StartNode(tfs: seq<TileFileSpec>, e: nat, lvl: int) returns (s: nat)
      requires Valid() && tilebuf.PoolValid() && TocClosed(tfs) && e < |tfs| && 1 <= lvl <= maxlvl && Wanted(tfs[e])
      modifies tilebuf`buf, tilebuf`nbuf, tilebuf`nused, tilebuf`last
      ensures Valid() && tilebuf.PoolValid() && tilebuf.nused == old(tilebuf.nused) + 1
      ensures ChildrenBuilt(old(tilebuf.buf), tilebuf.buf, s, tfs, e, lvl, Cfg(), 0)
    {
      var cfg := Cfg();
      ghost var a0 := tilebuf.buf;
      ghost var g := if tilebuf.nused == tilebuf.nbuf then a0 + Nones(16) else a0;
      s := tilebuf.AddTile();
      tilebuf.SetTile(s, TocNode(tfs[e], cfg, s));
      assert tilebuf.buf == g[s := Some(TocNode(tfs[e], cfg, s))];
      ChildrenStart(a0, g, s, tfs, e, lvl, cfg);
    }

    /** The child loop of `AddSubtileData`: children 0..3 of the node at s, in order. */
    method AddChildren(s: nat, tfs: seq<TileFileSpec>, e: nat, lvl: int, ghost a0: Arena)
      requires Valid() && tilebuf.PoolValid() && TocClosed(tfs) && e < |tfs| && lvl >= 1
      requires ChildrenBuilt(a0, tilebuf.buf, s, tfs, e, lvl, Cfg(), 0)
      modifies tilebuf`buf, tilebuf`nbuf, tilebuf`nused, tilebuf`last, this`nhitex, this`nhispec
      decreases Depth(lvl, Cfg()), 2
      ensures Valid() && tilebuf.PoolValid()
      ensures ChildrenBuilt(a0, tilebuf.buf, s, tfs, e, lvl, Cfg(), 4)
      ensures nhitex == old(nhitex) + ChildCount(tfs, tfs[e], lvl, Cfg(), 4).hitex
      ensures nhispec == old(nhispec) + ChildCount(tfs, tfs[e], lvl, Cfg(), 4).hispec
      ensures tilebuf.nused == old(tilebuf.nused) + ChildCount(tfs, tfs[e], lvl, Cfg(), 4).hitex
    {
      var t := tfs[e];
      var cfg := Cfg();
      var j := 0;
      while j < 4
        invariant 0 <= j <= 4 && Valid() && tilebuf.PoolValid() && Cfg() == cfg
        invariant ChildrenBuilt(a0, tilebuf.buf, s, tfs, e, lvl, cfg, j)
        invariant nhitex == old(nhitex) + ChildCount(tfs, t, lvl, cfg, j).hitex
        invariant nhispec == old(nhispec) + ChildCount(tfs, t, lvl, cfg, j).hispec
        invariant tilebuf.nused == old(tilebuf.nused) + ChildCount(tfs, t, lvl, cfg, j).hitex
      {
        ghost var before := ChildCount(tfs, t, lvl, cfg, j);
        ghost var c := ChildTurn(s, tfs, e, j, lvl, a0);
        assert ChildCount(tfs, t, lvl, cfg, j + 1) == Add(before, c);
        j := j + 1;
      }
    }

    /** One turn of the child loop: child j is built when its child number is set, and skipped otherwise. */
    method ChildTurn(s: nat, tfs: seq<TileFileSpec>, e: nat, j: nat, lvl: int, ghost a0: Arena) returns (ghost c: Counts)
      requires Valid() && tilebuf.PoolValid() && TocClosed(tfs) && e < |tfs| && j < 4 && lvl >= 1
      requires ChildrenBuilt(a0, tilebuf.buf, s, tfs, e, lvl, Cfg(), j)
      modifies tilebuf`buf, tilebuf`nbuf, tilebuf`nused, tilebuf`last, this`nhitex, this`nhispec
      decreases Depth(lvl, Cfg()), 1
      ensures Valid() && tilebuf.PoolValid()
      ensures ChildrenBuilt(a0, tilebuf.buf, s, tfs, e, lvl, Cfg(), j + 1)
      ensures c == if tfs[e].subidx[j] != 0 then TocCount(tfs, tfs[e].subidx[j], lvl + 1, Cfg()) else Counts(0, 0)
      ensures nhitex == old(nhitex) + c.hitex && nhispec == old(nhispec) + c.hispec
      ensures tilebuf.nused == old(tilebuf.nused) + c.hitex
    {
      if tfs[e].subidx[j] != 0 {
        AddChild(s, tfs, e, j, lvl, a0);
        c := TocCount(tfs, tfs[e].subidx[j], lvl + 1, Cfg());
      } else {
        c := Counts(0, 0);
        ghost var a := tilebuf.buf;
        ChildrenStep(a0, a, a, s, tfs, e, lvl, Cfg(), j, a[s].value.subtile);
        assert a[s := Some(a[s].value.(subtile := a[s].value.subtile))] == a;
      }
    }

    /**
     * One turn of the child loop of `AddSubtileData`: builds child j of the
     * node at s, which entry e names, and links it in.
     */
    method AddChild(s: nat, tfs: seq<TileFileSpec>, e: nat, j: nat, lvl: int, ghost a0: Arena)
      requires Valid() && tilebuf.PoolValid() && TocClosed(tfs) && e < |tfs| && j < 4 && tfs[e].subidx[j] != 0 && lvl >= 1
      requires ChildrenBuilt(a0, tilebuf.buf, s, tfs, e, lvl, Cfg(), j)
      modifies tilebuf`buf, tilebuf`nbuf, tilebuf`nused, tilebuf`last, this`nhitex, this`nhispec
      decreases Depth(lvl, Cfg()), 0
      ensures Valid() && tilebuf.PoolValid()
      ensures ChildrenBuilt(a0, tilebuf.buf, s, tfs, e, lvl, Cfg(), j + 1)
      ensures nhitex == old(nhitex) + TocCount(tfs, tfs[e].subidx[j], lvl + 1, Cfg()).hitex
      ensures nhispec == old(nhispec) + TocCount(tfs, tfs[e].subidx[j], lvl + 1, Cfg()).hispec
      ensures tilebuf.nused == old(tilebuf.nused) + TocCount(tfs, tfs[e].subidx[j], lvl + 1, Cfg()).hitex
    {
      ghost var a := tilebuf.buf;
      var csub' := AddSubtileData(tilebuf.buf[s].value.subtile, tfs, e, j, lvl + 1);
      ghost var a' := tilebuf.buf;
      tilebuf.SetTile(s, tilebuf.buf[s].value.(subtile := csub'));
      ChildrenStep(a0, a, a', s, tfs, e, lvl, Cfg(), j, csub');
    }
  }
}
