/**
 * The table of contents of a planet's high-resolution tile archive
 * (`_tile.bin`): one entry per tile below level 8, holding its capability
 * flags, the archive positions of its surface and mask textures and the
 * entry numbers of its four children (0 for none).
 *
 * When tiles are preloaded, the archive positions are replaced by ranks: the
 * position of each texture in ascending archive order, which is its index in
 * the buffer of textures the texture manager reads in one pass.
 */
module Toc {
  import opened TileTypes

  /** The four child entry numbers of a table entry; 0 means "no child". */
  type SubIdx = s: seq<Dword> | |s| == 4 witness [0, 0, 0, 0]

  /** `TILEFILESPEC`. */
  datatype TileFileSpec = TileFileSpec(flags: bv32, sidx: Dword, midx: Dword, subidx: SubIdx)

  /** `IDXLIST`: an entry number with one of its texture positions. */
  datatype IdxEntry = IdxEntry(idx: nat, ofs: Dword)

  /** Every child entry number names an entry of the table. */
  ghost predicate TocClosed(tfs: seq<TileFileSpec>)
  {
    forall e, j :: 0 <= e < |tfs| && 0 <= j < 4 ==> tfs[e].subidx[j] < |tfs|
  }

  /** `compare_idx`: orders list entries by texture position alone. */
  function CompareIdx(e1: IdxEntry, e2: IdxEntry): (c: int)
    ensures c < 0 <==> e1.ofs < e2.ofs
    ensures c > 0 <==> e1.ofs > e2.ofs
    ensures c == 0 <==> e1.ofs == e2.ofs
  {
    if e1.ofs < e2.ofs then -1 else if e1.ofs > e2.ofs then 1 else 0
  }

  // ---------------------------------------------------------------------
  // Offset-to-rank conversion

  /** The two texture-position columns of the table. */
  datatype Column = Surface | Mask

  function Col(t: TileFileSpec, c: Column): Dword
  {
    if c == Surface then t.sidx else t.midx
  }

  /** Entry t with column c replaced by v and every other field kept. */
  function SetCol(t: TileFileSpec, c: Column, v: Dword): (r: TileFileSpec)
    ensures Col(r, c) == v
    ensures forall d :: d != c ==> Col(r, d) == Col(t, d)
    ensures r.flags == t.flags && r.subidx == t.subidx
  {
    if c == Surface then t.(sidx := v) else t.(midx := v)
  }

  /** The list entry for table entry k, column c. */
  function Entry(tfs: seq<TileFileSpec>, c: Column, k: nat): IdxEntry
    requires k < |tfs|
  {
    IdxEntry(k, Col(tfs[k], c))
  }

  /**
   * `perm` is the order in which `qsort` leaves the list of entries of
   * column c: a permutation of the entry numbers under which `compare_idx`
   * never decreases. How entries with equal positions are ordered is not
   * determined.
   */
  ghost predicate SortedOrder(tfs: seq<TileFileSpec>, c: Column, perm: seq<nat>)
  {
    |tfs| < 0x1_0000_0000 && |perm| == |tfs| &&
    (forall p :: 0 <= p < |perm| ==> perm[p] < |tfs|) &&
    (forall p, q :: 0 <= p < q < |perm| ==> perm[p] != perm[q]) &&
    (forall k :: 0 <= k < |tfs| ==> k in perm) &&
    (forall p, q :: 0 <= p < q < |perm| ==> CompareIdx(Entry(tfs, c, perm[p]), Entry(tfs, c, perm[q])) <= 0)
  }

  /**
   * `t1` is `t0` with column c converted to ranks under `perm`: an entry
   * without a texture (`NOTILE`) keeps it, every other entry now holds the
   * position r at which `perm` lists it; nothing else changes.
   */
  ghost predicate RankedBy(t0: seq<TileFileSpec>, t1: seq<TileFileSpec>, c: Column, perm: seq<nat>)
    requires |perm| == |t0|
  {
    |t1| == |t0| &&
    (forall k :: 0 <= k < |t0| && Col(t0[k], c) == NOTILE ==> t1[k] == t0[k]) &&
    (forall k :: 0 <= k < |t0| && Col(t0[k], c) != NOTILE ==>
       Col(t1[k], c) < |perm| && perm[Col(t1[k], c)] == k && t1[k] == SetCol(t0[k], c, Col(t1[k], c)))
  }

  /**
   * The conversion of :199-221 for one column: list the entries in `qsort`
   * order and give each entry, up to the first one without a texture, its
   * position in that list.
   */
  method AssignRanks(tfs: array<TileFileSpec>, c: Column, perm: seq<nat>)
    requires SortedOrder(tfs[..], c, perm)
    modifies tfs
    ensures RankedBy(old(tfs[..]), tfs[..], c, perm)
  {
    var n := tfs.Length;
    var t0 := tfs[..];
    var idxlist := seq(n, p requires 0 <= p < n => Entry(t0, c, perm[p]));
    var i := 0;
    while i < n && idxlist[i].ofs != NOTILE
      invariant 0 <= i <= n && RankLoop(t0, tfs[..], c, perm, i)
    {
      ghost var cur := tfs[..];
      tfs[idxlist[i].idx] := SetCol(tfs[idxlist[i].idx], c, i);
      RankStep(t0, cur, c, perm, i);
      assert tfs[..] == cur[perm[i] := SetCol(cur[perm[i]], c, i)];
      i := i + 1;
    }
    RanksComplete(t0, tfs[..], c, perm, i);
  }

  /** The loop of `AssignRanks` has ranked the first i list entries and nothing else. */
  ghost predicate RankLoop(t0: seq<TileFileSpec>, t1: seq<TileFileSpec>, c: Column, perm: seq<nat>, i: nat)
  {
    SortedOrder(t0, c, perm) && |t1| == |t0| && i <= |t0| &&
    (forall p :: 0 <= p < i ==> Col(t0[perm[p]], c) != NOTILE) &&
    (forall p :: 0 <= p < i ==> t1[perm[p]] == SetCol(t0[perm[p]], c, p)) &&
    (forall k :: 0 <= k < |t0| && k !in perm[..i] ==> t1[k] == t0[k])
  }

  lemma RankStep(t0: seq<TileFileSpec>, t1: seq<TileFileSpec>, c: Column, perm: seq<nat>, i: nat)
    requires RankLoop(t0, t1, c, perm, i) && i < |t0| && Col(t0[perm[i]], c) != NOTILE
    ensures RankLoop(t0, t1[perm[i] := SetCol(t1[perm[i]], c, i)], c, perm, i + 1)
  {
    var t2 := t1[perm[i] := SetCol(t1[perm[i]], c, i)];
    assert perm[..i + 1] == perm[..i] + [perm[i]];
    assert perm[i] !in perm[..i];
    forall p | 0 <= p < i + 1 ensures t2[perm[p]] == SetCol(t0[perm[p]], c, p) {
      if p < i {
        assert perm[p] != perm[i];
      }
    }
  }

  /** The state the loop of `AssignRanks` stops in is the converted column. */
  lemma RanksComplete(t0: seq<TileFileSpec>, t1: seq<TileFileSpec>, c: Column, perm: seq<nat>, i: nat)
    requires RankLoop(t0, t1, c, perm, i)
    requires i < |t0| ==> Col(t0[perm[i]], c) == NOTILE
    ensures RankedBy(t0, t1, c, perm)
  {
    var n := |t0|;
    forall k | 0 <= k < n && Col(t0[k], c) != NOTILE
      ensures Col(t1[k], c) < n && perm[Col(t1[k], c)] == k && t1[k] == SetCol(t0[k], c, Col(t1[k], c))
    {
      assert k in perm;
      var p :| 0 <= p < n && perm[p] == k;
      if p >= i {
        assert false;
      }
    }
    forall k | 0 <= k < n && Col(t0[k], c) == NOTILE ensures t1[k] == t0[k] {
      if k in perm[..i] {
        assert false;
      }
    }
  }

  /**
   * Ranks respect the archive order: an entry whose texture lies strictly
   * before another's gets a strictly smaller rank.
   */
  lemma RankOrder(t0: seq<TileFileSpec>, t1: seq<TileFileSpec>, c: Column, perm: seq<nat>, j: nat, k: nat)
    requires SortedOrder(t0, c, perm) && RankedBy(t0, t1, c, perm)
    requires j < |t0| && k < |t0| && Col(t0[j], c) < Col(t0[k], c) && Col(t0[k], c) != NOTILE
    ensures Col(t1[j], c) < Col(t1[k], c)
  {
  }

  /**
   * The conversion of both columns (:199-221). The mask column is listed in
   * the order `qsort` leaves it in; converting the surface column first does
   * not change that order, since it leaves the mask column alone.
   */
  method ConvertOffsets(tfs: array<TileFileSpec>, sperm: seq<nat>, mperm: seq<nat>)
    requires SortedOrder(tfs[..], Surface, sperm) && SortedOrder(tfs[..], Mask, mperm)
    modifies tfs
    ensures exists mid :: RankedBy(old(tfs[..]), mid, Surface, sperm) && RankedBy(mid, tfs[..], Mask, mperm)
    ensures forall k :: 0 <= k < tfs.Length ==> tfs[k].flags == old(tfs[k].flags) && tfs[k].subidx == old(tfs[k].subidx)
  {
    ghost var t0 := tfs[..];
    AssignRanks(tfs, Surface, sperm);
    ghost var mid := tfs[..];
    SortedOrderFrame(t0, mid, Mask, mperm);
    AssignRanks(tfs, Mask, mperm);
    RankedShape(t0, mid, Surface, sperm);
    RankedShape(mid, tfs[..], Mask, mperm);
  }

  /** The conversion leaves every entry's flags and child numbers alone. */
  lemma RankedShape(t0: seq<TileFileSpec>, t1: seq<TileFileSpec>, c: Column, perm: seq<nat>)
    requires |perm| == |t0| && RankedBy(t0, t1, c, perm)
    ensures forall k :: 0 <= k < |t0| ==> t1[k].flags == t0[k].flags && t1[k].subidx == t0[k].subidx
    ensures TocClosed(t0) ==> TocClosed(t1)
  {
    forall k | 0 <= k < |t0| ensures t1[k].flags == t0[k].flags && t1[k].subidx == t0[k].subidx {
      if Col(t0[k], c) != NOTILE {
        assert t1[k] == SetCol(t0[k], c, Col(t1[k], c));
      }
    }
  }

  /** A column's sort order only depends on that column. */
  lemma SortedOrderFrame(t0: seq<TileFileSpec>, t1: seq<TileFileSpec>, c: Column, perm: seq<nat>)
    requires SortedOrder(t0, c, perm)
    requires |t1| == |t0| && forall k :: 0 <= k < |t0| ==> Col(t1[k], c) == Col(t0[k], c)
    ensures SortedOrder(t1, c, perm)
  {
    forall p, q | 0 <= p < q < |perm|
      ensures CompareIdx(Entry(t1, c, perm[p]), Entry(t1, c, perm[q])) <= 0
    {
      assert Entry(t1, c, perm[p]) == Entry(t0, c, perm[p]);
      assert Entry(t1, c, perm[q]) == Entry(t0, c, perm[q]);
    }
  }

  // ---------------------------------------------------------------------
  // Nodes built from table entries

  /**
   * The settings `AddSubtileData` consults: the highest level nodes are
   * built for, whether the archive uses old-style block numbers
   * (`tilever == 0`), and whether specular reflection or night lights are
   * enabled globally.
   */
  datatype TocConfig = TocConfig(maxlvl: int, tilever: int, masks: bool)

  /** The entry names at least one child. */
  predicate HasSubRefs(t: TileFileSpec)
  {
    exists j :: 0 <= j < 4 && t.subidx[j] != 0
  }

  /** An entry gets a node when it has capability flags or children. */
  predicate Wanted(t: TileFileSpec)
  {
    t.flags != 0 || HasSubRefs(t)
  }

  /**
   * The flags of a node built from entry t: the entry's flags, or 1 when
   * neither specular reflection nor lights are enabled; always marked
   * not-loaded; marked old-style when the archive is.
   */
  function NodeFlag(t: TileFileSpec, cfg: TocConfig): (f: bv32)
    ensures f & NOT_LOADED != 0
    ensures cfg.tilever == 0 ==> f & OLD_INDEX != 0
    ensures cfg.tilever != 0 && (!cfg.masks || t.flags & OLD_INDEX == 0) ==> f & OLD_INDEX == 0
    ensures f & 0x3F == if cfg.masks then t.flags & 0x3F else 1
  {
    var f0 := if cfg.masks then t.flags else 1;
    var f1 := f0 | NOT_LOADED;
    if cfg.tilever == 0 then f1 | OLD_INDEX else f1
  }

  /**
   * The node built from entry t, as :256-268 write it: the surface position
   * goes into `tex`, and the mask position into `ltex` only when masks are
   * enabled and the entry has one; otherwise `ltex` keeps the zero the node
   * was created with.
   */
  function TocNodeAsWritten(t: TileFileSpec, cfg: TocConfig, ofs: nat): (r: Tile)
    ensures r.flag == NodeFlag(t, cfg) && r.tex == IndexRef(t.sidx)
    ensures r.ltex == if cfg.masks && t.midx != NOTILE then IndexRef(t.midx) else Null
    ensures r.subtile == NoSubtiles && r.ofs == ofs
  {
    var ltex := if cfg.masks && t.midx != NOTILE then IndexRef(t.midx) else Null;
    Tile(IndexRef(t.sidx), ltex, NodeFlag(t, cfg), NoSubtiles, ofs)
  }

  /**
   * The node as the loaders need it: `ltex` reads back as the entry's mask
   * position when masks are enabled and the entry has one, and as `NOTILE`
   * ("no mask") otherwise.
   */
  function TocNode(t: TileFileSpec, cfg: TocConfig, ofs: nat): (r: Tile)
    ensures r.flag == NodeFlag(t, cfg) && r.tex == IndexRef(t.sidx)
    ensures SlotIndex(r.ltex) == if cfg.masks && t.midx != NOTILE then t.midx else NOTILE
    ensures r.subtile == NoSubtiles && r.ofs == ofs
  {
    var ltex := if cfg.masks && t.midx != NOTILE then IndexRef(t.midx) else IndexRef(NOTILE);
    Tile(IndexRef(t.sidx), ltex, NodeFlag(t, cfg), NoSubtiles, ofs)
  }

  /** The two differ exactly in `ltex` when there is no mask to record. */
  lemma AsWrittenLosesNoMask(t: TileFileSpec, cfg: TocConfig, ofs: nat)
    requires !(cfg.masks && t.midx != NOTILE)
    ensures SlotIndex(TocNodeAsWritten(t, cfg, ofs).ltex) == 0
    ensures SlotIndex(TocNode(t, cfg, ofs).ltex) == NOTILE
  {
  }

  // ---------------------------------------------------------------------
  // Counting the nodes of the table's trees

  /** Numbers of nodes and of nodes with a mask position (`nhitex`, `nhispec`). */
  datatype Counts = Counts(hitex: nat, hispec: nat)

  function Add(x: Counts, y: Counts): Counts
  {
    Counts(x.hitex + y.hitex, x.hispec + y.hispec)
  }

  /** Levels left to build below `lvl`. */
  function Depth(lvl: int, cfg: TocConfig): nat
  {
    if lvl <= cfg.maxlvl then cfg.maxlvl + 1 - lvl else 0
  }

  /**
   * The counts `AddSubtileData` adds for entry e placed at level `lvl`: one
   * node (and one mask if the entry names a mask position) when the entry is
   * wanted and the level is built, plus the counts of its children.
   */
  function TocCount(tfs: seq<TileFileSpec>, e: nat, lvl: int, cfg: TocConfig): Counts
    requires TocClosed(tfs) && e < |tfs|
    decreases Depth(lvl, cfg), 1
  {
    var t := tfs[e];
    if !Wanted(t) || lvl > cfg.maxlvl then Counts(0, 0)
    else Add(Counts(1, if t.midx != NOTILE then 1 else 0), ChildCount(tfs, t, lvl, cfg, 4))
  }

  /** The counts of the children named by the first n child numbers of t. */
  function ChildCount(tfs: seq<TileFileSpec>, t: TileFileSpec, lvl: int, cfg: TocConfig, n: nat): Counts
    requires TocClosed(tfs) && t in tfs && n <= 4 && lvl <= cfg.maxlvl
    decreases Depth(lvl, cfg), 0, n
  {
    if n == 0 then Counts(0, 0)
    else
      var c := if t.subidx[n - 1] != 0 then TocCount(tfs, t.subidx[n - 1], lvl + 1, cfg) else Counts(0, 0);
      Add(ChildCount(tfs, t, lvl, cfg, n - 1), c)
  }

  /** Every counted mask belongs to a counted node: `nhispec <= nhitex`. */
  lemma {:induction false} SpecWithinTex(tfs: seq<TileFileSpec>, e: nat, lvl: int, cfg: TocConfig)
    requires TocClosed(tfs) && e < |tfs|
    ensures TocCount(tfs, e, lvl, cfg).hispec <= TocCount(tfs, e, lvl, cfg).hitex
    decreases Depth(lvl, cfg), 1
  {
    var t := tfs[e];
    if Wanted(t) && lvl <= cfg.maxlvl {
      ChildSpecWithinTex(tfs, t, lvl, cfg, 4);
    }
  }

  lemma {:induction false} ChildSpecWithinTex(tfs: seq<TileFileSpec>, t: TileFileSpec, lvl: int, cfg: TocConfig, n: nat)
    requires TocClosed(tfs) && t in tfs && n <= 4 && lvl <= cfg.maxlvl
    ensures ChildCount(tfs, t, lvl, cfg, n).hispec <= ChildCount(tfs, t, lvl, cfg, n).hitex
    decreases Depth(lvl, cfg), 0, n
  {
    if n > 0 {
      ChildSpecWithinTex(tfs, t, lvl, cfg, n - 1);
      if t.subidx[n - 1] != 0 {
        SpecWithinTex(tfs, t.subidx[n - 1], lvl + 1, cfg);
      }
    }
  }

  /** An entry that names no child adds nothing for its children. */
  lemma {:induction false} NoChildCount(tfs: seq<TileFileSpec>, t: TileFileSpec, lvl: int, cfg: TocConfig, n: nat)
    requires TocClosed(tfs) && t in tfs && n <= 4 && lvl <= cfg.maxlvl && !HasSubRefs(t)
    ensures ChildCount(tfs, t, lvl, cfg, n) == Counts(0, 0)
  {
    if n > 0 {
      assert t.subidx[n - 1] == 0;
      NoChildCount(tfs, t, lvl, cfg, n - 1);
    }
  }

  /** A wanted entry at the highest level counts its own node and nothing below it. */
  lemma MaxLevelCount(tfs: seq<TileFileSpec>, e: nat, cfg: TocConfig)
    requires TocClosed(tfs) && e < |tfs| && Wanted(tfs[e])
    ensures TocCount(tfs, e, cfg.maxlvl, cfg) == Counts(1, if tfs[e].midx != NOTILE then 1 else 0)
  {
    MaxLevelChildren(tfs, tfs[e], cfg, 4);
  }

  /** The children of a node at the highest level add nothing. */
  lemma {:induction false} MaxLevelChildren(tfs: seq<TileFileSpec>, t: TileFileSpec, cfg: TocConfig, n: nat)
    requires TocClosed(tfs) && t in tfs && n <= 4
    ensures ChildCount(tfs, t, cfg.maxlvl, cfg, n) == Counts(0, 0)
  {
    if n > 0 {
      MaxLevelChildren(tfs, t, cfg, n - 1);
    }
  }
}
