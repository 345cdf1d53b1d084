/**
 * The level-8 loop of `LoadTileData`: for each of the 364 level-8 base
 * tiles and each of its four child numbers in turn, the tree the table of
 * contents names there is built in the pool and linked in. `BaseLoop` is
 * what holds after the first p (tile, child) pairs, and the lemmas below
 * carry it over one pair.
 */
module BaseLoad {
  import opened TileTypes
  import opened TileArena
  import opened Toc
  import opened TocBuild
  import opened Forests

  /** `patchidx[7]`: the first level-8 base tile. */
  const TILE8: nat := 137

  /** The number of level-8 base tiles. */
  const NTILE8: nat := 364

  /**
   * The link of base tile child j after `LoadTileData`: the tree built for
   * child entry e when that entry exists and is wanted, the old link
   * otherwise.
   */
  ghost predicate LinkLoaded(a: Arena, link: Option<nat>, oldlink: Option<nat>, tbl: seq<TileFileSpec>, e: nat, cfg: TocConfig)
    requires TocClosed(tbl) && e < |tbl|
  {
    if e != 0 && Wanted(tbl[e]) then Placed(a, link, tbl, e, 9, cfg) else link == oldlink
  }

  /** The counts the turn for child j of level-8 tile i adds. */
  function PairCount(tbl: seq<TileFileSpec>, cfg: TocConfig, i: nat, j: nat): Counts
    requires TocClosed(tbl) && i < NTILE8 <= |tbl| && j < 4
  {
    var e := tbl[i].subidx[j];
    if e != 0 then TocCount(tbl, e, 9, cfg) else Counts(0, 0)
  }

  /** The counts the turns for the first n children of level-8 tile i add. */
  function TileCount(tbl: seq<TileFileSpec>, cfg: TocConfig, i: nat, n: nat): Counts
    requires TocClosed(tbl) && i < NTILE8 <= |tbl| && n <= 4
  {
    if n == 0 then Counts(0, 0) else Add(TileCount(tbl, cfg, i, n - 1), PairCount(tbl, cfg, i, n - 1))
  }

  /** The counts the turns for the first i level-8 tiles add, in loop order. */
  function BaseCount(tbl: seq<TileFileSpec>, cfg: TocConfig, i: nat): Counts
    requires TocClosed(tbl) && i <= NTILE8 <= |tbl|
  {
    if i == 0 then Counts(0, 0) else Add(BaseCount(tbl, cfg, i - 1), TileCount(tbl, cfg, i - 1, 4))
  }

  /** Child m of base tile k comes before child j of level-8 tile i in the loop. */
  predicate Done(k: nat, m: nat, i: nat, j: nat)
  {
    TILE8 <= k < TILE8 + NTILE8 && (k - TILE8 < i || (k - TILE8 == i && m < j))
  }

  /**
   * Before child j of level-8 tile i, starting from pool a0 and base table d0: every occupied
   * slot of a0 keeps its node, the base table is a forest over the pool,
   * base tiles differ from d0 only in their links, the links of the pairs
   * done are loaded and all other links are the old ones.
   */
  ghost predicate BaseLoop(a0: Arena, a: Arena, d0: seq<Tile>, d: seq<Tile>, tbl: seq<TileFileSpec>, cfg: TocConfig, i: nat, j: nat)
    requires TocClosed(tbl) && NTILE8 <= |tbl|
  {
    cfg.maxlvl <= SURF_MAX_PATCHLEVEL && |d| == |d0| && TILE8 + NTILE8 <= |d| && i <= NTILE8 && j <= 4 &&
    Extends(a0, a) && Forest(a, d) &&
    (forall k :: 0 <= k < |d| ==> d[k] == d0[k].(subtile := d[k].subtile)) &&
    (forall k, m :: 0 <= k < |d| && 0 <= m < 4 && !Done(k, m, i, j) ==> d[k].subtile[m] == d0[k].subtile[m]) &&
    (forall k, m :: 0 <= k < |d| && 0 <= m < 4 && Done(k, m, i, j) ==>
       LinkLoaded(a, d[k].subtile[m], d0[k].subtile[m], tbl, tbl[k - TILE8].subidx[m], cfg))
  }

  lemma BaseLoopStart(a: Arena, d: seq<Tile>, tbl: seq<TileFileSpec>, cfg: TocConfig)
    requires TocClosed(tbl) && NTILE8 <= |tbl| && cfg.maxlvl <= SURF_MAX_PATCHLEVEL
    requires TILE8 + NTILE8 <= |d| && Forest(a, d)
    ensures BaseLoop(a, a, d, d, tbl, cfg, 0, 0)
  {
  }

  /**
   * Child k of base tile i gets a link to a sound tree over slots that were
   * empty, while every occupied slot keeps its node: the base table is
   * still a forest.
   */
  lemma BaseChildStep(a: Arena, b: Arena, base: seq<Tile>, i: nat, k: nat, sub': Subtiles)
    requires Forest(a, base) && i < |base| && k < 4 && Extends(a, b)
    requires forall m :: 0 <= m < 4 && m != k ==> sub'[m] == base[i].subtile[m]
    requires sub'[k].Some? ==> NodeSound(b, sub'[k].value, BASE_HEIGHT - 1) &&
                               FreshTree(a, b, sub'[k].value, BASE_HEIGHT - 1)
    ensures Forest(b, base[i := base[i].(subtile := sub')])
  {
    var sub := base[i].subtile;
    forall m, x | 0 <= m < 4 && m != k && sub[m].Some? && x in Tree(a, sub[m].value, BASE_HEIGHT - 1)
      ensures SameShape(a, b, x)
    {
      TreeLive(a, sub[m].value, BASE_HEIGHT - 1, x);
    }
    StepChild(a, b, sub, sub', k, BASE_HEIGHT);
    ForestStep(a, b, base, i, sub');
  }

  /** A loaded link stays loaded while every occupied slot keeps its node. */
  lemma LoadedExtends(a: Arena, b: Arena, base: seq<Tile>, i: nat, m: nat, oldlink: Option<nat>,
                      tbl: seq<TileFileSpec>, e: nat, cfg: TocConfig)
    requires Forest(a, base) && i < |base| && m < 4 && Extends(a, b)
    requires TocClosed(tbl) && e < |tbl| && cfg.maxlvl <= SURF_MAX_PATCHLEVEL
    requires LinkLoaded(a, base[i].subtile[m], oldlink, tbl, e, cfg)
    ensures LinkLoaded(b, base[i].subtile[m], oldlink, tbl, e, cfg)
  {
    if e != 0 && Wanted(tbl[e]) {
      assert TileSound(a, base[i].subtile, BASE_HEIGHT);
      PlacedExtends(a, b, base[i].subtile[m], tbl, e, 9, cfg);
    }
  }

  /** After the fourth child of a tile comes the first child of the next. */
  lemma BaseLoopNext(a0: Arena, a: Arena, d0: seq<Tile>, d: seq<Tile>, tbl: seq<TileFileSpec>, cfg: TocConfig, i: nat)
    requires TocClosed(tbl) && i < NTILE8 <= |tbl|
    requires BaseLoop(a0, a, d0, d, tbl, cfg, i, 4)
    ensures BaseLoop(a0, a, d0, d, tbl, cfg, i + 1, 0)
  {
    forall k, m | 0 <= m < 4 ensures Done(k, m, i, 4) == Done(k, m, i + 1, 0) {
    }
  }

  /**
   * One turn of the level-8 loop, for child j of base tile `TILE8 + i`:
   * `AddSubtileData` turned its links into `sub'` and the pool a into b, as
   * its contract promises.
   */
  lemma BaseLoopStep(a0: Arena, a: Arena, b: Arena, d0: seq<Tile>, d: seq<Tile>, tbl: seq<TileFileSpec>,
                     cfg: TocConfig, i: nat, j: nat, sub': Subtiles)
    requires TocClosed(tbl) && i < NTILE8 <= |tbl| && j < 4
    requires BaseLoop(a0, a, d0, d, tbl, cfg, i, j) && Extends(a, b)
    requires var k, e := TILE8 + i, tbl[i].subidx[j];
      (forall m :: 0 <= m < 4 && m != j ==> sub'[m] == d[k].subtile[m]) &&
      (e != 0 && Wanted(tbl[e]) ==> Placed(b, sub'[j], tbl, e, 9, cfg)) &&
      (e == 0 || !Wanted(tbl[e]) ==> sub' == d[k].subtile && b == a) &&
      (e != 0 && Wanted(tbl[e]) && sub'[j].Some? ==> NodeSound(b, sub'[j].value, H(9)) && FreshTree(a, b, sub'[j].value, H(9)))
    ensures BaseLoop(a0, b, d0, d[TILE8 + i := d[TILE8 + i].(subtile := sub')], tbl, cfg, i, j + 1)
  {
    var d' := d[TILE8 + i := d[TILE8 + i].(subtile := sub')];
    ExtendsTrans(a0, a, b);
    LinkStep(a0, a, b, d0, d, tbl, cfg, i, j, sub');
    LoadedStep(a, b, d0, d, tbl, cfg, i, j, sub');
    KeptStep(d0, d, i, j, sub');
    ShapeStep(d0, d, TILE8 + i, sub');
    BaseLoopIntro(a0, b, d0, d', tbl, cfg, i, j + 1);
  }

  /** The new link of the turn keeps the base table a forest and is the link loaded from the table. */
  lemma LinkStep(a0: Arena, a: Arena, b: Arena, d0: seq<Tile>, d: seq<Tile>, tbl: seq<TileFileSpec>,
                 cfg: TocConfig, i: nat, j: nat, sub': Subtiles)
    requires TocClosed(tbl) && i < NTILE8 <= |tbl| && j < 4
    requires BaseLoop(a0, a, d0, d, tbl, cfg, i, j) && Extends(a, b)
    requires var k, e := TILE8 + i, tbl[i].subidx[j];
      (forall m :: 0 <= m < 4 && m != j ==> sub'[m] == d[k].subtile[m]) &&
      (e != 0 && Wanted(tbl[e]) ==> Placed(b, sub'[j], tbl, e, 9, cfg)) &&
      (e == 0 || !Wanted(tbl[e]) ==> sub' == d[k].subtile && b == a) &&
      (e != 0 && Wanted(tbl[e]) && sub'[j].Some? ==> NodeSound(b, sub'[j].value, H(9)) && FreshTree(a, b, sub'[j].value, H(9)))
    ensures Forest(b, d[TILE8 + i := d[TILE8 + i].(subtile := sub')])
    ensures LinkLoaded(b, sub'[j], d0[TILE8 + i].subtile[j], tbl, tbl[i].subidx[j], cfg)
  {
    var k, e := TILE8 + i, tbl[i].subidx[j];
    if Wanted(tbl[e]) && e != 0 {
      BaseChildStep(a, b, d, k, j, sub');
    } else {
      assert d[k := d[k].(subtile := sub')] == d;
      assert !Done(k, j, i, j);
    }
  }

  /** Only the links of a base tile change. */
  lemma ShapeStep(d0: seq<Tile>, d: seq<Tile>, k: nat, sub': Subtiles)
    requires |d| == |d0| && k < |d|
    requires forall k :: 0 <= k < |d| ==> d[k] == d0[k].(subtile := d[k].subtile)
    ensures var d' := d[k := d[k].(subtile := sub')];
      forall k :: 0 <= k < |d'| ==> d'[k] == d0[k].(subtile := d'[k].subtile)
  {
  }

  lemma BaseLoopIntro(a0: Arena, a: Arena, d0: seq<Tile>, d: seq<Tile>, tbl: seq<TileFileSpec>, cfg: TocConfig, i: nat, j: nat)
    requires TocClosed(tbl) && NTILE8 <= |tbl|
    requires cfg.maxlvl <= SURF_MAX_PATCHLEVEL && |d| == |d0| && TILE8 + NTILE8 <= |d| && i <= NTILE8 && j <= 4
    requires Extends(a0, a) && Forest(a, d)
    requires forall k :: 0 <= k < |d| ==> d[k] == d0[k].(subtile := d[k].subtile)
    requires forall k, m :: 0 <= k < |d| && 0 <= m < 4 && !Done(k, m, i, j) ==> d[k].subtile[m] == d0[k].subtile[m]
    requires forall k, m :: 0 <= k < |d| && 0 <= m < 4 && Done(k, m, i, j) ==>
      LinkLoaded(a, d[k].subtile[m], d0[k].subtile[m], tbl, tbl[k - TILE8].subidx[m], cfg)
    ensures BaseLoop(a0, a, d0, d, tbl, cfg, i, j)
  {
  }

  /** The links of the turns done stay loaded, and the new one joins them. */
  lemma LoadedStep(a: Arena, b: Arena, d0: seq<Tile>, d: seq<Tile>, tbl: seq<TileFileSpec>, cfg: TocConfig,
                   i: nat, j: nat, sub': Subtiles)
    requires TocClosed(tbl) && i < NTILE8 <= |tbl| && j < 4 && cfg.maxlvl <= SURF_MAX_PATCHLEVEL
    requires |d| == |d0| && TILE8 + NTILE8 <= |d| && Forest(a, d) && Extends(a, b)
    requires forall k, m :: 0 <= k < |d| && 0 <= m < 4 && Done(k, m, i, j) ==>
       LinkLoaded(a, d[k].subtile[m], d0[k].subtile[m], tbl, tbl[k - TILE8].subidx[m], cfg)
    requires forall m :: 0 <= m < 4 && m != j ==> sub'[m] == d[TILE8 + i].subtile[m]
    requires LinkLoaded(b, sub'[j], d0[TILE8 + i].subtile[j], tbl, tbl[i].subidx[j], cfg)
    ensures var d' := d[TILE8 + i := d[TILE8 + i].(subtile := sub')];
      forall k, m :: 0 <= k < |d'| && 0 <= m < 4 && Done(k, m, i, j + 1) ==>
        LinkLoaded(b, d'[k].subtile[m], d0[k].subtile[m], tbl, tbl[k - TILE8].subidx[m], cfg)
  {
    var d' := d[TILE8 + i := d[TILE8 + i].(subtile := sub')];
    forall k, m | 0 <= k < |d'| && 0 <= m < 4 && Done(k, m, i, j + 1)
      ensures LinkLoaded(b, d'[k].subtile[m], d0[k].subtile[m], tbl, tbl[k - TILE8].subidx[m], cfg)
    {
      if k != TILE8 + i || m != j {
        assert Done(k, m, i, j) && d'[k].subtile[m] == d[k].subtile[m];
        LoadedExtends(a, b, d, k, m, d0[k].subtile[m], tbl, tbl[k - TILE8].subidx[m], cfg);
      }
    }
  }

  /** The links of the turns still to come keep their old values. */
  lemma KeptStep(d0: seq<Tile>, d: seq<Tile>, i: nat, j: nat, sub': Subtiles)
    requires i < NTILE8 && j < 4 && |d| == |d0| && TILE8 + NTILE8 <= |d|
    requires forall k, m :: 0 <= k < |d| && 0 <= m < 4 && !Done(k, m, i, j) ==> d[k].subtile[m] == d0[k].subtile[m]
    requires forall m :: 0 <= m < 4 && m != j ==> sub'[m] == d[TILE8 + i].subtile[m]
    ensures var d' := d[TILE8 + i := d[TILE8 + i].(subtile := sub')];
      forall k, m :: 0 <= k < |d'| && 0 <= m < 4 && !Done(k, m, i, j + 1) ==> d'[k].subtile[m] == d0[k].subtile[m]
  {
    var d' := d[TILE8 + i := d[TILE8 + i].(subtile := sub')];
    forall k, m | 0 <= k < |d'| && 0 <= m < 4 && !Done(k, m, i, j + 1)
      ensures d'[k].subtile[m] == d0[k].subtile[m]
    {
      assert !Done(k, m, i, j) && (k != TILE8 + i || m != j);
    }
  }

  /**
   * What the level-8 loop leaves, from pool a0 and base table d0: every
   * occupied slot keeps its node, base tiles change only in their links,
   * only level-8 tiles get new links, and each of those is loaded.
   */
  ghost predicate BaseLoaded(a0: Arena, a: Arena, d0: seq<Tile>, d: seq<Tile>, tbl: seq<TileFileSpec>, cfg: TocConfig)
    requires TocClosed(tbl) && NTILE8 <= |tbl|
  {
    Extends(a0, a) && |d| == |d0| && TILE8 + NTILE8 <= |d| &&
    (forall k :: 0 <= k < |d| ==> d[k] == d0[k].(subtile := d[k].subtile)) &&
    (forall k, j :: 0 <= k < |d| && !(TILE8 <= k < TILE8 + NTILE8) && 0 <= j < 4 ==> d[k].subtile[j] == d0[k].subtile[j]) &&
    (forall i, j :: 0 <= i < NTILE8 && 0 <= j < 4 ==>
       LinkLoaded(a, d[TILE8 + i].subtile[j], d0[TILE8 + i].subtile[j], tbl, tbl[i].subidx[j], cfg))
  }

  /** After all 1456 pairs every level-8 link is loaded. */
  lemma BaseLoopEnd(a0: Arena, a: Arena, d0: seq<Tile>, d: seq<Tile>, tbl: seq<TileFileSpec>, cfg: TocConfig)
    requires TocClosed(tbl) && NTILE8 <= |tbl|
    requires BaseLoop(a0, a, d0, d, tbl, cfg, NTILE8, 0)
    ensures BaseLoaded(a0, a, d0, d, tbl, cfg) && Forest(a, d)
  {
    forall i, j | 0 <= i < NTILE8 && 0 <= j < 4
      ensures LinkLoaded(a, d[TILE8 + i].subtile[j], d0[TILE8 + i].subtile[j], tbl, tbl[i].subidx[j], cfg)
    {
      assert Done(TILE8 + i, j, NTILE8, 0);
    }
  }
}
