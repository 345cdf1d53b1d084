# Planetary tile quadtree bookkeeping (D3D9Client `TileMgr.cpp`)

This project models the integer and pointer bookkeeping of the planetary
surface renderer of the Orbiter D3D9 client, and proves properties of it in
Dafny. The planet's surface is a quadtree of tiles. Levels 1..8 live in a
fixed base table (`tiledesc`). Levels 9..14 are nodes of a shared pool
(`TileBuffer`) that grows by 16 slots at a time. A background loader fills
those nodes through a bounded ring of load requests.

Each module follows one part of the source:

- **TileTypes** holds the node record. Its surface and mask fields `tex`
  and `ltex` are tagged: `Null`, an archive `Index`, or a loaded `Handle`.
  This is how the source uses one pointer field for both.
- **TileArena** treats the pool as a slot table, with a pointer being a
  slot index. It defines sound subtrees of bounded height, and which nodes
  may be evicted (no surface texture, all children evicted).
- **TileBuffers** covers the pool and the ring:
  - the `TileBuffer` class with `AddTile`, `DeleteTile`, `DeleteSubTiles`
    and `LoadTileAsync`;
  - one service step of the loader thread;
  - the eviction algorithms on the slot table that `DeleteTile` runs.
- **Archive** gives the archive offset of a tile. Old-style archives scale
  a block number by 32896 in a 32-bit `long`.
- **PatchTables** holds the `patchidx`, `NLAT` and `NLNG` tables and their
  identities.
- **BaseTable** covers the flag stamping of `LoadPatchData`, the mask
  hand-out of `LoadSpecularMasks` and the level reduction of `LoadTextures`.
- **Toc** and **TocBuild** cover the table of contents:
  - `compare_idx`;
  - the conversion of archive positions to ranks;
  - the node `AddSubtileData` builds from an entry, with the counts
    `nhitex` and `nhispec`. The node is given both as written and
    corrected; a corrected node with no mask records `NOTILE` in `ltex` (see
    "## Findings"). The trees the manager builds use the corrected node;

  - the shape of the tree it builds.
- **Forests** and **BaseLoad** prove that the level-8 loop of
  `LoadTileData` keeps the base table a forest of disjoint sound trees.
- **Preload** covers `PreloadTileTextures` and `AddSubtileTextures`. The
  textures move out of the load buffers into the tree in preorder.
- **TileManagers** holds the `TileManager` class with its loaders. Each one
  takes what was read from disk as a parameter.
- **Render** covers base-patch traversal and step-down in `Render` and
  `ProcessTile`. The camera tests are oracles, and the result is a plan of
  what each patch does.
- **Mesh** covers the integer vertex and index fills of `CreateSphere` and
  `CreateSpherePatch`.

Inputs the source gets from outside are parameters of the model:

- the textures the texture manager loaded;
- the archive reader;
- file contents already read;
- the camera tests.

`released` records every texture handed to `ReleaseTex`.

## Model

| member | source | states |
|---|---|---|
| TileTypes.IndexRef | Orbitersdk/D3D9Client/TileMgr.cpp:258 | An archive index stored in a texture field is a null pointer exactly when it is 0, and is never taken for a loaded texture. |
| TileTypes.IndexRoundTrip | Orbitersdk/D3D9Client/TileMgr.cpp:375 | Reading a stored index back with `(DWORD)` gives the index that was stored. |
| TileTypes.ZeroTile | Orbitersdk/D3D9Client/TileMgr.cpp:1256-1257 | A new node has null textures, flag 0 and no children. Only its own slot is set. |
| Archive.Long | Orbitersdk/D3D9Client/TileMgr.cpp:1391 | The `(long)` conversion is the 32-bit two's-complement value congruent to its argument. It is the identity within range. |
| Archive.OffsetExact | Orbitersdk/D3D9Client/TileMgr.cpp:1391 | Within a 2 GiB archive the offset is index × 32896 when bit 0x40 is set, else the index itself; it is never negative. |
| Archive.OldStyleOffsetWraps | Orbitersdk/D3D9Client/TileMgr.cpp:1391 | Old-style block 65281 lies beyond 2 GiB, and its offset wraps to a negative `long`. |
| PatchTables.Nlng | Orbitersdk/D3D9Client/TileMgr.cpp:1175-1180 | Level l has NLAT[l] latitude bands, and each holds at least one patch. |
| PatchTables.LevelBlockSize | Orbitersdk/D3D9Client/TileMgr.cpp:1147-1180 | For l in 5..8, 2·ΣNLNG[l] = patchidx[l] − patchidx[l−1]. That is 364 at level 8. |
| PatchTables.PatchIdxIncreasing | Orbitersdk/D3D9Client/TileMgr.cpp:1147 | `patchidx` is strictly increasing. |
| TileArena.CountUpdate | Orbitersdk/D3D9Client/TileMgr.cpp:1282-1284 | Storing into a slot changes the live count by exactly the change in that slot's occupancy. This is the `nused` bookkeeping. |
| TileArena.EvictNode | Orbitersdk/D3D9Client/TileMgr.cpp:1312-1319 | Once the children's subtrees are pruned, the node is freed exactly when its `tex` is null and no child is left. |
| TileBuffers.Loaded | Orbitersdk/D3D9Client/TileMgr.cpp:1395-1400 | A failed read gives a null texture; a successful one gives the texture read. |
| TileBuffers.SurfaceTexture | Orbitersdk/D3D9Client/TileMgr.cpp:1387-1401 | `NOTILE` gives a null texture without reading. Any other index reads `_tile.tex` at the archive offset. The result is never an archive index. |
| TileBuffers.MaskTexture | Orbitersdk/D3D9Client/TileMgr.cpp:1403-1413 | The mask is read only when `(flag&3)==3 \|\| (flag&4)`, and only for an index other than `NOTILE`. Otherwise it is null. |
| TileBuffers.Served | Orbitersdk/D3D9Client/TileMgr.cpp:1416-1418 | A served node has bits 0x80 and 0x40 cleared and keeps its other low bits, links and slot. It holds no archive index. |
| TileBuffers.ServedWithoutReading | Orbitersdk/D3D9Client/TileMgr.cpp:1388-1389 | A node with neither a surface index nor a mask to fetch is served the same whatever the archive holds. |
| TileBuffers.RotationCovers | Orbitersdk/D3D9Client/TileMgr.cpp:1271-1277 | `(i+last)%nbuf` for i < nbuf visits every slot once. So a pool with a free slot always finds one. |
| TileBuffers.RingDistinct | Orbitersdk/D3D9Client/TileMgr.cpp:1331-1333 | The window positions `(i+queue_out)%MAXQUEUE` for distinct i < MAXQUEUE are distinct slots. |
| TileBuffers.EvictSubTiles | Orbitersdk/D3D9Client/TileMgr.cpp:1290-1297 | Frees exactly `EvictedBelow`: at every depth below the links, each node whose whole subtree has no surface texture. A direct child goes exactly when its subtree is texture-free, and its link is cleared. Only evictable nodes go (null `tex`, all children freed). The live count drops by the number freed, and the result is sound. |
| TileBuffers.EvictTile | Orbitersdk/D3D9Client/TileMgr.cpp:1301-1320 | Bottom-up eviction that frees exactly `Evicted`: at every depth, each node whose whole subtree has null `tex`, and `ltex` is never consulted. The node itself goes exactly when its whole subtree is texture-free. Slots outside the subtree are untouched, and the count drops by the number freed. |
| TileArena.EvictedDeepLeaf | Orbitersdk/D3D9Client/TileMgr.cpp:1290-1320 | A texture-free leaf below two textured nodes is freed while both nodes above it stay. |
| TileBuffers.TileBuffer.constructor | Orbitersdk/D3D9Client/TileMgr.cpp:1189-1205 | An empty pool and an empty ring of `MAXQUEUE` entries. |
| TileBuffers.TileBuffer.AddTile | Orbitersdk/D3D9Client/TileMgr.cpp:1254-1286 | Returns a zeroed node in a slot that was empty, and increments `nused`. The pool grows by exactly 16 empty slots only when full, keeping old contents. No other slot changes. |
| TileBuffers.TileBuffer.LoadTileAsync | Orbitersdk/D3D9Client/TileMgr.cpp:1324-1347 | Accepts exactly when the ring is not full and the node is not in the window. Then the request is appended to the window; otherwise nothing changes. The ring invariant `queue_in == (queue_out+nqueue)%MAXQUEUE` and "no duplicate in the window" are kept. |
| TileBuffers.TileBuffer.ServiceStep | Orbitersdk/D3D9Client/TileMgr.cpp:1373-1421 | With a pending request it serves the oldest one (FIFO). The node becomes `Served`, `nqueue` drops by one, `queue_out` advances, and the rest of the window is kept. Without a request nothing changes. |
| TileBuffers.TileBuffer.Dequeue | Orbitersdk/D3D9Client/TileMgr.cpp:1373-1375 | Returns the oldest request, and the window loses exactly that request; the ring invariant is kept. |
| TileBuffers.TileBuffer.DeleteSubTiles | Orbitersdk/D3D9Client/TileMgr.cpp:1290-1297 | Frees exactly `EvictedBelow` of the old pool, so every texture-free subtree at any depth below the links goes. A direct child goes exactly when its subtree is texture-free. Links to freed children are cleared, `nused` drops by the number freed, and the tile itself is never freed. |
| TileBuffers.TileBuffer.DeleteTile | Orbitersdk/D3D9Client/TileMgr.cpp:1301-1320 | Frees exactly `Evicted` of the old pool, at every depth. Returns true exactly when the whole subtree has no surface texture, and `nused` drops by the number freed. |
| BaseTable.PatchFlag | Orbitersdk/D3D9Client/TileMgr.cpp:147-152 | Tiles below the table's first level get flag 1; the others get a byte-sized flag from the table. |
| BaseTable.LowByte | Orbitersdk/D3D9Client/TileMgr.cpp:151 | The `(BYTE)` cast of a table word is at most 0xFF. |
| BaseTable.MaskCount | Orbitersdk/D3D9Client/TileMgr.cpp:153-154 | `nmask` counts the tiles that ask for a mask, at most one per tile. |
| BaseTable.MaskRankAll | Orbitersdk/D3D9Client/TileMgr.cpp:428-432 | The hand-out counter, after the last tile, equals `nmask`. |
| BaseTable.MaskRanksDistinct | Orbitersdk/D3D9Client/TileMgr.cpp:428-430 | Of two tiles that ask for masks, the earlier one gets a strictly smaller position in `specbuf`. |
| BaseTable.MaskRankBelowCount | Orbitersdk/D3D9Client/TileMgr.cpp:430 | A tile asking for a mask gets a position below `nmask`. |
| BaseTable.SpecularTile | Orbitersdk/D3D9Client/TileMgr.cpp:429-434 | A tile that asks for a mask takes `specbuf[n]`; the other fields are kept. |
| BaseTable.SpecularFlags | Orbitersdk/D3D9Client/TileMgr.cpp:431-434 | After the hand-out: no lights bit unless lights are on; no specular bit, and the opaque bit set, unless specular is on. A tile left without a mask gets 1. |
| BaseTable.MasksSuffice | Orbitersdk/D3D9Client/TileMgr.cpp:418-432 | With a complete mask file, every tile asking for a mask gets one, and no two share a texture. |
| BaseTable.FittingLevel | Orbitersdk/D3D9Client/TileMgr.cpp:299 | The level loop settles on the highest level ≤ l whose `patchidx` is covered by the textures loaded. |
| Toc.CompareIdx | Orbitersdk/D3D9Client/TileMgr.cpp:238-243 | Negative, zero or positive exactly as the first offset is below, equal to or above the second. |
| Toc.SetCol | Orbitersdk/D3D9Client/TileMgr.cpp:208 | Writing one column of an entry leaves its other column, flags and child numbers alone. |
| Toc.AssignRanks | Orbitersdk/D3D9Client/TileMgr.cpp:202-208 | One column in `qsort` order: each entry with a texture gets its sorted position, `NOTILE` entries keep `NOTILE`, and nothing else changes. |
| Toc.RanksComplete | Orbitersdk/D3D9Client/TileMgr.cpp:207-208 | Stopping at the first `NOTILE` in sorted order converts the whole column. |
| Toc.RankOrder | Orbitersdk/D3D9Client/TileMgr.cpp:199-216 | A strictly smaller offset gives a strictly smaller rank. |
| Toc.ConvertOffsets | Orbitersdk/D3D9Client/TileMgr.cpp:199-221 | Both columns are converted in turn; flags and child numbers are unchanged. |
| Toc.RankedShape | Orbitersdk/D3D9Client/TileMgr.cpp:210-216 | The conversion keeps every entry's flags and child numbers, so the table stays closed. |
| Toc.SortedOrderFrame | Orbitersdk/D3D9Client/TileMgr.cpp:214 | Converting the surface column leaves the mask list's sort order valid. |
| Toc.NodeFlag | Orbitersdk/D3D9Client/TileMgr.cpp:257-268 | A created node always has 0x80. It has 0x40 when `tilever == 0`. With `tilever != 0` it has 0x40 only if masks are on and the entry carries it. Its low six bits are the entry's flags, or 1 when neither global specular nor lights is on. |
| Toc.TocNodeAsWritten | Orbitersdk/D3D9Client/TileMgr.cpp:256-268 | The node as written: `tex` holds `sidx`, and `ltex` holds `midx` only with masks enabled and `midx != NOTILE`, else the zero from `memset`. |
| Toc.TocNode | Orbitersdk/D3D9Client/TileMgr.cpp:256-268 | Corrected node: `ltex` reads back as `midx`, or as `NOTILE` when there is no mask to record. |
| Toc.AsWrittenLosesNoMask | Orbitersdk/D3D9Client/TileMgr.cpp:259-262 | Without a mask, the as-written node reads back mask index 0, and the corrected one reads `NOTILE`. |
| Toc.SpecWithinTex | Orbitersdk/D3D9Client/TileMgr.cpp:275-276 | `nhispec` never exceeds `nhitex`. |
| Toc.NoChildCount | Orbitersdk/D3D9Client/TileMgr.cpp:270-274 | An entry with no child references adds nothing for children. |
| Toc.MaxLevelCount | Orbitersdk/D3D9Client/TileMgr.cpp:255-277 | A wanted entry at level `maxlvl` adds exactly one to `nhitex`, and one to `nhispec` when it names a mask; its children add nothing. |
| TocBuild.LeafAtMaxLevel | Orbitersdk/D3D9Client/TileMgr.cpp:255-278 | A node built at level `maxlvl` is a leaf: every child link is null. |
| TocBuild.ChildrenEnd | Orbitersdk/D3D9Client/TileMgr.cpp:270-274 | After the fourth child the node's subtree is built: sound, fresh, and placed as the entry describes, with every node the corrected `Toc.TocNode`. |
| Forests.ForestStep | Orbitersdk/D3D9Client/TileMgr.cpp:226-228 | Giving one base tile new sound links over fresh slots keeps all base trees disjoint and sound. |
| BaseLoad.BaseLoopEnd | Orbitersdk/D3D9Client/TileMgr.cpp:223-229 | After all 364×4 turns every level-8 link is the tree built from the table. Other base tiles are unchanged, and no occupied slot lost its node. |
| Preload.Take | Orbitersdk/D3D9Client/TileMgr.cpp:376-384 | An index below the buffer size moves that texture out and nulls the slot. Any other index gives null and leaves the buffer alone. |
| Preload.FillBuffers | Orbitersdk/D3D9Client/TileMgr.cpp:371-401 | After a walk over distinct nodes, a buffer slot is cleared exactly when some node's index names it. |
| Preload.FillNodeResult | Orbitersdk/D3D9Client/TileMgr.cpp:375-396 | Each node gets the texture its index names if no earlier node named it, else null. It loses the 0x80 bit and keeps its links and slot. |
| Preload.HandedOnce | Orbitersdk/D3D9Client/TileMgr.cpp:378-379 | No two nodes get the texture of the same buffer slot. |
| Preload.TextureMoved | Orbitersdk/D3D9Client/TileMgr.cpp:378-379 | A slot the walk cleared had its texture moved into the first node naming it. |
| Preload.FillMisses | Orbitersdk/D3D9Client/TileMgr.cpp:380-382 | `tmissing` grows by the indices ≥ `nt` (or `nm`) that are not `NOTILE`, in both layers. |
| Preload.PreorderTree | Orbitersdk/D3D9Client/TileMgr.cpp:398-400 | The recursion visits each node of a sound subtree exactly once. |
| Preload.TakeTexture | Orbitersdk/D3D9Client/TileMgr.cpp:376-384 | In place on the buffer it does exactly `Take`. It counts a miss exactly when the index is neither `NOTILE` nor below the buffer size. |
| Preload.FillTree | Orbitersdk/D3D9Client/TileMgr.cpp:371-401 | `AddSubtileTextures` on a subtree is the node step folded over the preorder of the subtree. |
| Preload.FillBase | Orbitersdk/D3D9Client/TileMgr.cpp:348-353 | The copy loop is the fold over the trees below the 364 level-8 tiles, in tile and link order. |
| Preload.BaseOrderSound | Orbitersdk/D3D9Client/TileMgr.cpp:348-353 | That order lists every node below the level-8 tiles once, and each holds a node. |
| Preload.HeldSlots | Orbitersdk/D3D9Client/TileMgr.cpp:355-366 | A texture is still held exactly when some slot has it. |
| Preload.ReleaseHeld | Orbitersdk/D3D9Client/TileMgr.cpp:354-366 | Every texture left in a buffer is released, and nothing else. |
| Preload.PreloadAll | Orbitersdk/D3D9Client/TileMgr.cpp:320-367 | The whole pass: the pool after the walk, the new `tmissing`, and the leftovers released. |
| Preload.PreloadForest | Orbitersdk/D3D9Client/TileMgr.cpp:371-401 | The walk keeps every slot and link, so the base table stays a forest. |
| Preload.AsWrittenStealsMask | Orbitersdk/D3D9Client/TileMgr.cpp:386-390 | As written, a node without a mask takes mask texture 0, and the node that owns it is left without. |
| Preload.CorrectedKeepsMask | Orbitersdk/D3D9Client/TileMgr.cpp:386-395 | Corrected, the mask texture goes to the node it belongs to. |
| TileManagers.StampOpaque | Orbitersdk/D3D9Client/TileMgr.cpp:118-119 | The first `patchidx[maxbaselvl]` tiles get flag 1; the rest are unchanged. |
| TileManagers.StampFlags | Orbitersdk/D3D9Client/TileMgr.cpp:147-156 | Each tile in use gets `PatchFlag`, and the count is the number of tiles asking for a mask. |
| TileManagers.HandOutMasks | Orbitersdk/D3D9Client/TileMgr.cpp:428-435 | Each tile in use becomes `SpecularTile` at its mask rank. |
| TileManagers.SetTextures | Orbitersdk/D3D9Client/TileMgr.cpp:302-303 | Tile i gets texture i, for every texture kept. |
| TileManagers.FitBaseLevel | Orbitersdk/D3D9Client/TileMgr.cpp:299 | Returns `FittingLevel`. |
| TileManagers.ReleaseSurplus | Orbitersdk/D3D9Client/TileMgr.cpp:300 | Releases exactly the textures beyond `patchidx[maxbaselvl]`. |
| TileManagers.TileManager.constructor | Orbitersdk/D3D9Client/TileMgr.cpp:55-78 | Zero counters, the global switches, and a zeroed base table of size `patchidx[min(lvl,8)]` that is a forest. |
| TileManagers.TileManager.LoadPatchData | Orbitersdk/D3D9Client/TileMgr.cpp:103-160 | Returns true exactly with masks or lights on and a table present. Without a table every tile in use gets flag 1; with one, `PatchFlag`. `nmask` counts the mask tiles. |
| TileManagers.TileManager.LoadSpecularMasks | Orbitersdk/D3D9Client/TileMgr.cpp:405-443 | With `nmask == 0` nothing changes. A short or empty file sets `nmask = 0` and flags 1. A complete file gives each mask tile the next mask in tile order, and the global switches clear the bits they turn off. |
| TileManagers.TileManager.LoadBaseTextures | Orbitersdk/D3D9Client/TileMgr.cpp:284-310 | Nothing loaded sets `bNoTextures`. Otherwise the base level becomes `FittingLevel` (and `maxlvl` with it), the surplus is released, and tile i gets texture i. |
| TileManagers.TileManager.PreloadTileTextures | Orbitersdk/D3D9Client/TileMgr.cpp:320-367 | The pool after the preorder walk, plus `tmissing` and every unclaimed texture released. The forest is kept. |
| TileManagers.TileManager.LoadTextures | Orbitersdk/D3D9Client/TileMgr.cpp:284-316 | The base-texture step, then the preload pass exactly when preloading with `nhitex > 0`. |
| TileManagers.TileManager.LoadTileData | Orbitersdk/D3D9Client/TileMgr.cpp:164-234 | Returns true exactly when `maxlvl > 8` and a table exists; otherwise nothing changes. `tilever` becomes 1 for a new-style archive without preloading, else 0. When preloading a new-style archive, both columns become ranks. Every level-8 link is then built from the table, the pool only grows into empty slots, and the counts grow by the nodes built. |
| TileManagers.TileManager.LoadBaseTrees | Orbitersdk/D3D9Client/TileMgr.cpp:223-229 | Every level-8 link is built, and the counts grow by `BaseCount`. |
| TileManagers.TileManager.AddSubtileData | Orbitersdk/D3D9Client/TileMgr.cpp:247-280 | An entry with flags or children gets a node at `lvl <= maxlvl`, and the link is cleared beyond that. Otherwise nothing changes. New nodes use only empty slots, and `nhitex`/`nhispec` grow by the nodes and masks built. |
| TileManagers.HasChildren | Orbitersdk/D3D9Client/TileMgr.cpp:252-253 | `bSubtiles` is set exactly when some child number of the entry is non-zero. |
| TileManagers.TileManager.AddChildren | Orbitersdk/D3D9Client/TileMgr.cpp:270-274 | Children 0..3 of the new node are built in order. |
| Render.ChildrenTile | Orbitersdk/D3D9Client/TileMgr.cpp:626-632 | Child k is on the grid one level down, in the same hemisphere, on a grid twice as fine. Halving its cell gives the parent's cell, and distinct k give distinct cells. |
| Render.SubRangeInside | Orbitersdk/D3D9Client/TileMgr.cpp:605-612 | A child's texture subrange is the matching half of the parent range in either direction. |
| Render.Process | Orbitersdk/D3D9Client/TileMgr.cpp:543-666 | Horizon-culled exactly when `beyond` (nothing happens); frustum-culled (only `DeleteSubTiles`) exactly when not beyond but outside. A split only when `lvl < tgtlvl`, into the four children in order. A tile drawn with the fallback look is at level ≥ 8. |
| Render.KidOf | Orbitersdk/D3D9Client/TileMgr.cpp:613-633 | Requested exactly when the child exists with 0x80 and the parent lacks 0x80. Walked with its own textures exactly when it exists, is loaded and has a non-null `tex`. |
| Render.ProcessDepth | Orbitersdk/D3D9Client/TileMgr.cpp:572 | The recursion depth is at most `tgtlvl − lvl`. |
| Render.DrawsReal | Orbitersdk/D3D9Client/TileMgr.cpp:658-664 | When loaded nodes hold no archive indices, nothing is drawn with an archive index or outside the unit texture range. |
| Render.RequestsPending | Orbitersdk/D3D9Client/TileMgr.cpp:618-620 | Every requested node is a live node still flagged 0x80. |
| Render.Row | Orbitersdk/D3D9Client/TileMgr.cpp:525-530 | One band's patches, in longitude order, on the grid of the level. |
| Render.BasePatches | Orbitersdk/D3D9Client/TileMgr.cpp:510-531 | The traversal loops list both hemispheres' bands from the top band down. |
| Render.BasePatchesFit | Orbitersdk/D3D9Client/TileMgr.cpp:524-531 | The traversal visits exactly `patchidx[l] − patchidx[l−1]` patches, so `idx` stays inside the level's base block. |
| Render.Walk | Orbitersdk/D3D9Client/TileMgr.cpp:494-535 | One plan per base patch of the start level. |
| Render.WalkDepth | Orbitersdk/D3D9Client/TileMgr.cpp:572 | No base patch steps down below the target level. |
| Render.WalkDrawable | Orbitersdk/D3D9Client/TileMgr.cpp:526-528 | When the start level's base tiles and the loaded nodes hold no archive indices, nothing in the whole walk is drawn with one. |
| Mesh.SphereCounts | Orbitersdk/D3D9Client/TileMgr.cpp:891-892 | nVtx is nrings rings of x1+1 points plus two poles, and nIdx is nrings rows of 6·x1 indices. Here x1 is nrings for a hemisphere and 2·nrings otherwise. |
| Mesh.SphereNodesSize | Orbitersdk/D3D9Client/TileMgr.cpp:910-947 | The vertex loop writes exactly nVtx vertices, with the poles last at nVtx−2 and nVtx−1. |
| Mesh.SphereNodeAt | Orbitersdk/D3D9Client/TileMgr.cpp:910-927 | Point x of ring y is vertex y·x2 + x. |
| Mesh.SphereVertices | Orbitersdk/D3D9Client/TileMgr.cpp:910-947 | The vertex array is the ring points followed by the two poles. |
| Mesh.SphereIndexCount | Orbitersdk/D3D9Client/TileMgr.cpp:929-969 | The index loops write exactly nIdx entries: 12·nrings², or 6·nrings² for a hemisphere. |
| Mesh.SphereIndexRange | Orbitersdk/D3D9Client/TileMgr.cpp:929-969 | Every index is below nVtx. |
| Mesh.SphereIndexProper | Orbitersdk/D3D9Client/TileMgr.cpp:929-969 | No triangle repeats a corner. |
| Mesh.SphereBand | Orbitersdk/D3D9Client/TileMgr.cpp:930-938 | One band appends its quads, two triangles each. |
| Mesh.SphereCap | Orbitersdk/D3D9Client/TileMgr.cpp:949-958 | One cap appends a triangle fan around the pole. |
| Mesh.SphereIndexList | Orbitersdk/D3D9Client/TileMgr.cpp:929-969 | The index array is the bands, then the south cap, then the north cap. |
| Mesh.CreateSphere | Orbitersdk/D3D9Client/TileMgr.cpp:888-969 | The vertex and index arrays of the sphere or hemisphere. |
| Mesh.PatchVtxFormula | Orbitersdk/D3D9Client/TileMgr.cpp:1017-1018 | The vertex loop writes exactly (bseg+1)(res+1) vertices, less res(res+1)/2 when reduced. |
| Mesh.PatchNodeAt | Orbitersdk/D3D9Client/TileMgr.cpp:1042-1081 | Point j of strip i is vertex `nofs0 + j`. |
| Mesh.PatchVertices | Orbitersdk/D3D9Client/TileMgr.cpp:1042-1081 | The vertex array is the strips' points, in order. |
| Mesh.PatchIndexCount | Orbitersdk/D3D9Client/TileMgr.cpp:1084-1100 | The index loop writes exactly 3·2·res·bseg entries, or 3·res·(2·bseg−res) when reduced. |
| Mesh.PatchIndexRange | Orbitersdk/D3D9Client/TileMgr.cpp:1087-1100 | Every index is below nVtx, and no triangle repeats a corner. |
| Mesh.StepFill | Orbitersdk/D3D9Client/TileMgr.cpp:1091-1097 | One segment appends one triangle, and a second unless it closes a reduced strip. |
| Mesh.StripFill | Orbitersdk/D3D9Client/TileMgr.cpp:1088-1098 | One strip appends its segments; a reduced strip leaves after its last triangle. |
| Mesh.PatchIndexList | Orbitersdk/D3D9Client/TileMgr.cpp:1084-1100 | The index array is the triangle strips, in order. |
| Mesh.FlipTrisAt | Orbitersdk/D3D9Client/TileMgr.cpp:1101-1103 | The first t triangles have their last two corners swapped; every other entry is unchanged. |
| Mesh.AsWrittenFlips | Orbitersdk/D3D9Client/TileMgr.cpp:1102 | The swap loop runs ⌈(nIdx/3)/3⌉ times, never past the array. |
| Mesh.FlipWinding | Orbitersdk/D3D9Client/TileMgr.cpp:1101-1103 | The swap loop, as written: it reverses exactly the triangles that start below nIdx/3. |
| Mesh.AsWrittenFlipsFewer | Orbitersdk/D3D9Client/TileMgr.cpp:1102 | With two or more triangles, fewer than all are reversed. |
| Mesh.AsWrittenKeepsSecondTriangle | Orbitersdk/D3D9Client/TileMgr.cpp:1101-1103 | For the 1×1 patch, the second triangle keeps its outward winding. |
| Mesh.FlipAllWinding | Orbitersdk/D3D9Client/TileMgr.cpp:1101-1103 | The swap loop as intended (`i < nIdx`): the list becomes `FlipTris` over all triangles. |
| Mesh.FlipTrisReverses | Orbitersdk/D3D9Client/TileMgr.cpp:1101-1103 | Flipping all triangles swaps the last two corners of every triangle, which reverses its winding. |
| Mesh.FlipTrisInvolution | Orbitersdk/D3D9Client/TileMgr.cpp:1101-1103 | Flipping the same triangles twice gives the original list back. |
| Mesh.CorrectedFlipsBothTriangles | Orbitersdk/D3D9Client/TileMgr.cpp:1101-1103 | For the 1×1 patch, the intended loop reverses both triangles. |
| Mesh.CreateSpherePatch | Orbitersdk/D3D9Client/TileMgr.cpp:995-1103 | The `bseg` adjustment, the vertex and index arrays, and the swap loop for an inside-viewed patch. |

## Left out

- Threads, the queue mutex, `Sleep`, `TerminateThread` and the hold flag are not modelled. The loader is one sequential `ServiceStep`, and the mutual exclusion the lock gives is assumed.
- TileBuffers.TileBuffer.ServiceStep requires the queued node to be live. The source does not guarantee this: a queued node whose `tex` is null can be evicted before it is served.
- Direct3D is not modelled: device, texture and vertex-buffer creation, `Lock`/`Unlock`, the bounding sphere and box, and `RenderTile`/`RenderSimple` drawing. `ReleaseTex` becomes a multiset of released handles.
- File reading is not modelled: `fopen`/`fread`, the `_lmask.bin` and `_tile.bin` header parsing, `TexturePath`, and `ReadDDSSurface`. The loaders take what was read as parameters, and the archive reader is a function parameter.
- `qsort` is a parameter. The sort order it leaves is any permutation ordered by `compare_idx`; how equal offsets are ordered is not fixed.
- The texture manager's `LoadTextures` is not modelled. The model takes the textures it returned, at most the number asked for.
- Logging, stats counters and `MessageBeep` are not modelled, and neither are `GlobalInit`/`GlobalExit` or the microtexture settings.
- The allocation of `tiledesc` (in the planet code) is not modelled. The constructor creates a zeroed base table of `patchidx[min(maxlvl,8)]` tiles.
- `MAXQUEUE` is defined in TileMgr.h, which is not part of this model. The ring size is the length of `loadqueue`, any positive number.
- `tmissing` is a global in the source and is a field of the manager here.
- Floating point is not modelled: tile centres and extents, the world matrix, the horizon and frustum tests, and the oblique-tilt test. They are the `Camera` oracles. Texture ranges are exact reals rather than single-precision floats.
- Render.Process is a pure plan over the pool as the walk reaches the node. Applying the plan is not modelled: creating a missing child with `AddTile`, `DeleteSubTiles` on a frustum-culled node, and `LoadTileAsync`. The interleaving of those writes between base patches is not modelled either.
- `Render` at level ≤ 4 (`RenderSimple`) and the camera-motion level cap, which `acos` drives, are not modelled. The target level is a field of the camera.
- TocBuild.ChildrenEnd states the subtree over the corrected `Toc.TocNode`. Where the entry has no mask, each node's `ltex` holds `NOTILE`; the source leaves the zero from `memset`. The as-written node is `Toc.TocNodeAsWritten`; "## Findings" explains why it takes another node's mask.
- BaseLoad.BaseLoopEnd states every level-8 tree over the corrected `Toc.TocNode`, so a node with no mask has `ltex` `NOTILE` rather than the source's null.
- TileManagers.TileManager.LoadTileData builds the level-8 trees from the corrected `Toc.TocNode`, so a node with no mask has `ltex` `NOTILE` rather than the source's null. The later preload therefore runs the corrected program.
- TileManagers.TileManager.LoadBaseTrees states each level-8 link as built over the corrected `Toc.TocNode`, not the as-written node.
- TileManagers.TileManager.AddSubtileData stores the corrected `Toc.TocNode`, with `ltex` `NOTILE` where the source leaves null.
- TileManagers.TileManager.AddChildren states the children as placed and built over the corrected `Toc.TocNode`, not the as-written node.
- Toc.TocClosed requires every child number in the table to be below the table's length. The source indexes `tfs[subidx]` without checking.
- TileManagers.MaskTableFits requires the `_lmask.bin` table's `minres` to lie in 1..9 and `tflag` to cover every base tile from `patchidx[minres-1]` up to `patchidx[maxbaselvl]`. The source reads `patchidx[minres-1]` and `tflag[idx++]` without checking.
- TileManagers.TocFits requires at least 364 table entries. The source reads `tfs[i]` for i < 364 without checking `n`.
- TileManagers.TileManager.LoadSpecularMasks for a short mask file does not record the textures loaded. The source deletes `specbuf` without releasing them.
- TileManagers.TileManager.LoadTextures requires the level-8 tiles to exist in the base table when preloading. The source indexes `tiledesc + patchidx[7]` without a check.
- Vertex positions, normals and texture coordinates are not modelled. Vertices are their grid positions (`Node`).
- Mesh.CreateSphere requires nrings ≥ 1. With nrings = 0 the source's `nrings-1` (DWORD) wraps around.
- Mesh.CreateSpherePatch requires `res <= bseg` when reduced. Otherwise the strip loops overrun `Idx`, and no caller does this.
- Mesh.SphereIndexList and Mesh.PatchIndexList produce unbounded integer indices. The source writes `WORD`s. Every index is proved below nVtx, so truncation changes nothing while nVtx ≤ 65536; that bound is not checked.
- Mesh.CreateSpherePatch runs the swap loop as written (`Mesh.FlipWinding`), which reverses only the first third of the triangles. The intended loop is `Mesh.FlipAllWinding` (see "## Findings"); the patch is not rebuilt with it.

## Findings

| source | as written | input that shows it | evidently intended | confidence | as-written member | corrected member |
|---|---|---|---|---|---|---|
| Orbitersdk/D3D9Client/TileMgr.cpp:259-262 | A node from an entry with `midx == NOTILE` (or with masks off) keeps `ltex == 0` from `memset`. `AddSubtileTextures` then reads mask index 0 ≠ `NOTILE` and moves `mbuf[0]` into it. | Two entries with masks on: the first has `midx == NOTILE`, the second has mask rank 0, and one mask texture is loaded. The first node takes the texture, and the second is left without. | `ltex` records `NOTILE` when there is no mask, so the node takes no mask texture. | not executed; high | Preload.AsWrittenStealsMask | Preload.CorrectedKeepsMask |
| Orbitersdk/D3D9Client/TileMgr.cpp:1101-1103 | For an inside-viewed patch the swap loop runs `i < nIdx/3` in steps of 3. It reverses only the triangles that start in the first third of the list. | The 1×1 patch has two triangles (six indices). The loop runs only at i = 0, so the second triangle keeps its outward winding. | The loop runs to `nIdx`, so every triangle of the patch is reversed. | not executed; high | Mesh.AsWrittenKeepsSecondTriangle | Mesh.FlipAllWinding |
