/**
 * The level-of-detail walk of `Render` and `ProcessTile`: every base patch
 * of the start level is processed, and a patch either is culled, is pruned
 * (its nodes below are given back), is drawn with a texture, or is split
 * into its four children, one level finer.
 *
 * The camera tests (horizon, viewport, oblique tilt, coarse texture, the
 * final visibility test) are floating-point geometry and are taken as
 * oracles over the patch. `Process` returns the plan of one patch: what the
 * source does while it walks the patch, stated over the pool as it is when
 * the walk reaches the patch (the walk of one patch touches only the nodes
 * below it).
 */
module Render {
  import opened TileTypes
  import opened TileArena
  import opened PatchTables

  /** A patch: level, hemisphere, latitude band of nlat, longitude slot of nlng. */
  datatype Patch = Patch(lvl: int, hemisp: int, ilat: int, nlat: int, ilng: int, nlng: int)

  /** The patch lies inside its level's grid. */
  predicate OnGrid(p: Patch)
  {
    0 <= p.hemisp < 2 && 0 <= p.ilat < p.nlat && 0 <= p.ilng < p.nlng
  }

  /**
   * Child idx of p, in the order the loops of :612-617 visit them: the
   * latitude offset i runs 1, 0 and the longitude offset j runs 0, 1.
   */
  function ChildPatch(p: Patch, idx: nat): Patch
    requires idx < 4
  {
    var i := if idx < 2 then 1 else 0;
    var j := if idx == 1 || idx == 3 then 1 else 0;
    Patch(p.lvl + 1, p.hemisp, 2 * p.ilat + i, 2 * p.nlat, 2 * p.ilng + j, 2 * p.nlng)
  }

  /**
   * The four children tile their parent: each lies on the finer grid, one
   * level down, inside the parent (halving its indices gives the parent's),
   * and no two coincide.
   */
  lemma ChildrenTile(p: Patch, k: nat, k': nat)
    requires OnGrid(p) && k < 4 && k' < 4
    ensures var c := ChildPatch(p, k);
      OnGrid(c) && c.lvl == p.lvl + 1 && c.hemisp == p.hemisp && c.nlat == 2 * p.nlat && c.nlng == 2 * p.nlng &&
      c.ilat / 2 == p.ilat && c.ilng / 2 == p.ilng
    ensures k != k' ==> (ChildPatch(p, k).ilat, ChildPatch(p, k).ilng) != (ChildPatch(p, k').ilat, ChildPatch(p, k').ilng)
  {
  }

  /** The camera tests of `ProcessTile`, as oracles. */
  datatype Camera = Camera(
    /** The target level `RenderParam.tgtlvl`. */
    tgtlvl: int,
    /** The patch lies beyond the visible cap (:555-558). */
    beyond: Patch -> bool,
    /** The patch's bounding box misses the viewport (:566-569). */
    outside: Patch -> bool,
    /** The patch is seen too obliquely to step down (:574-600, the first tilt test). */
    oblique: Patch -> bool,
    /** The patch is seen so obliquely that the parent's texture is used (the second tilt test). */
    coarse: Patch -> bool,
    /** The patch is behind the horizon or outside the camera's view (:644-645). */
    hidden: Patch -> bool)

  /** A texture coordinate range; the source's single precision is taken as exact. */
  datatype Range = Range(umin: real, umax: real, vmin: real, vmax: real)

  /** The whole texture. */
  const FULL: Range := Range(0.0, 1.0, 0.0, 1.0)

  /**
   * The quadrant of r that child idx uses when it borrows its parent's
   * texture (:608-616): the same loop offsets as `ChildPatch`.
   */
  function SubRange(r: Range, idx: nat): Range
    requires idx < 4
  {
    var i: real := if idx < 2 then 1.0 else 0.0;
    var j: real := if idx == 1 || idx == 3 then 1.0 else 0.0;
    var du, dv := (r.umax - r.umin) * 0.5, (r.vmax - r.vmin) * 0.5;
    var vmin, umin := r.vmin + (1.0 - i) * dv, r.umin + j * du;
    Range(umin, umin + du, vmin, vmin + dv)
  }

  /** A range inside the whole texture, not empty. */
  predicate Inside(r: Range)
  {
    0.0 <= r.umin < r.umax <= 1.0 && 0.0 <= r.vmin < r.vmax <= 1.0
  }

  /**
   * A quadrant lies inside its range and has half its extent in each
   * direction; the lower-latitude children (idx 2, 3) take the upper half
   * of the v range.
   */
  lemma SubRangeInside(r: Range, idx: nat)
    requires Inside(r) && idx < 4
    ensures var q := SubRange(r, idx);
      Inside(q) && r.umin <= q.umin && q.umax <= r.umax && r.vmin <= q.vmin && q.vmax <= r.vmax &&
      q.umax - q.umin == (r.umax - r.umin) / 2.0 && q.vmax - q.vmin == (r.vmax - r.vmin) / 2.0 &&
      (idx < 2 <==> q.vmin == r.vmin) && (idx == 1 || idx == 3 <==> q.umax == r.umax)
  {
  }

  /** What a patch is drawn with: the texture range, surface and mask textures, and flags. */
  datatype Look = Look(range: Range, tex: TexRef, ltex: TexRef, flag: bv32)

  /** A node's own textures over the whole range. */
  function OwnLook(t: Tile): Look
  {
    Look(FULL, t.tex, t.ltex, t.flag)
  }

  /** What `ProcessTile` does with one patch. */
  datatype Plan =
    | Culled                 // nothing
    | Pruned                 // `DeleteSubTiles` on the patch's node
    | Hidden                 // not split, and not drawn
    | Drawn(look: Look)      // `RenderTile` with this look
    | Split(kids: seq<Kid>)  // the four children, in visiting order

  /**
   * One child of a split patch: its grid position, the node link it had
   * (`None`: the child was created then), whether its texture was requested,
   * whether it was walked with its own texture, and its plan.
   */
  datatype Kid = Kid(at: Patch, link: Option<nat>, queued: bool, own: bool, plan: Plan)

  /** The node a child link leads to; a created child is a zeroed node. */
  function ChildTile(a: Arena, c: Option<nat>): Tile
  {
    if c.Some? && c.value < |a| && a[c.value].Some? then a[c.value].value else ZeroTile(0)
  }

  /**
   * `ProcessTile` (:537-666) for patch p with node t, walked with look
   * `look` and fallback look `bkp`.
   */
  function Process(a: Arena, cam: Camera, p: Patch, t: Tile, look: Look, bkp: Look): (r: Plan)
    decreases cam.tgtlvl - p.lvl, 1
    ensures r == Culled <==> cam.beyond(p)
    ensures r == Pruned <==> !cam.beyond(p) && cam.outside(p)
    ensures r.Split? ==> p.lvl < cam.tgtlvl && |r.kids| == 4
    ensures r.Split? ==> forall k :: 0 <= k < 4 ==> r.kids[k] == KidOf(a, cam, p, t, look, k)
    ensures r.Drawn? ==> r.look == look || (r.look == bkp && p.lvl >= 8)
  {
    if cam.beyond(p) then Culled
    else if cam.outside(p) then Pruned
    else
      var down := p.lvl < cam.tgtlvl;
      var tilt := down && p.lvl >= 8 && cam.oblique(p);
      if down && !tilt then
        Split([KidOf(a, cam, p, t, look, 0), KidOf(a, cam, p, t, look, 1), KidOf(a, cam, p, t, look, 2), KidOf(a, cam, p, t, look, 3)])
      else if cam.hidden(p) then Hidden
      else Drawn(if tilt && cam.coarse(p) then bkp else look)
  }

  /**
   * Child k of a split patch (:618-633): a missing child is created; a
   * child still waiting for its texture is requested only when the parent
   * node has its own; the child is walked with its own textures only when
   * it exists, is loaded and has a surface texture, and otherwise with the
   * parent's quadrant. The fallback is always the parent's textures on
   * that quadrant.
   */
  function KidOf(a: Arena, cam: Camera, p: Patch, t: Tile, look: Look, k: nat): (r: Kid)
    requires p.lvl < cam.tgtlvl && k < 4
    decreases cam.tgtlvl - p.lvl, 0
    ensures r.at == ChildPatch(p, k) && r.link == t.subtile[k]
    ensures r.queued <==> r.link.Some? && ChildTile(a, r.link).flag & NOT_LOADED != 0 && t.flag & NOT_LOADED == 0
    ensures r.own <==> r.link.Some? && ChildTile(a, r.link).flag & NOT_LOADED == 0 && ChildTile(a, r.link).tex != Null
  {
    var c := t.subtile[k];
    var child := ChildTile(a, c);
    var pending := c.Some? && child.flag & NOT_LOADED != 0;
    var own := c.Some? && !pending && child.tex != Null;
    Kid(ChildPatch(p, k), c, pending && t.flag & NOT_LOADED == 0, own,
        Process(a, cam, ChildPatch(p, k), child, KidLook(child, own, look, k), Quadrant(look, k)))
  }

  /** The look child k is walked with. */
  function KidLook(child: Tile, own: bool, look: Look, k: nat): Look
    requires k < 4
  {
    if own then OwnLook(child) else Quadrant(look, k)
  }

  /** The parent's textures on quadrant k of its range (:610-612, :628, :631-632). */
  function Quadrant(look: Look, k: nat): Look
    requires k < 4
  {
    look.(range := SubRange(look.range, k))
  }

  // ---------------------------------------------------------------------
  // What a plan does

  /** The number of levels a plan steps down. */
  function Depth(r: Plan): nat
    decreases r
  {
    if r.Split? then 1 + MaxDepth(r, |r.kids|) else 0
  }

  /** The deepest of the first n children of a split plan. */
  function MaxDepth(r: Plan, n: nat): nat
    requires r.Split? && n <= |r.kids|
    decreases r, n
  {
    if n == 0 then 0
    else
      var m, d := MaxDepth(r, n - 1), Depth(r.kids[n - 1].plan);
      if m < d then d else m
  }

  /** The walk steps down no further than the target level. */
  lemma {:induction false} ProcessDepth(a: Arena, cam: Camera, p: Patch, t: Tile, look: Look, bkp: Look)
    ensures Depth(Process(a, cam, p, t, look, bkp)) <= if p.lvl < cam.tgtlvl then cam.tgtlvl - p.lvl else 0
    decreases cam.tgtlvl - p.lvl, 1
  {
    var r := Process(a, cam, p, t, look, bkp);
    if r.Split? {
      forall k | 0 <= k < 4 ensures Depth(r.kids[k].plan) <= cam.tgtlvl - p.lvl - 1 {
        KidDepth(a, cam, p, t, look, k);
      }
      MaxDepthBound(r, 4, cam.tgtlvl - p.lvl - 1);
    }
  }

  lemma {:induction false} KidDepth(a: Arena, cam: Camera, p: Patch, t: Tile, look: Look, k: nat)
    requires p.lvl < cam.tgtlvl && k < 4
    ensures Depth(KidOf(a, cam, p, t, look, k).plan) <= cam.tgtlvl - p.lvl - 1
    decreases cam.tgtlvl - p.lvl, 0
  {
    var c := t.subtile[k];
    var child := ChildTile(a, c);
    var own := c.Some? && child.flag & NOT_LOADED == 0 && child.tex != Null;
    ProcessDepth(a, cam, ChildPatch(p, k), child, KidLook(child, own, look, k), Quadrant(look, k));
  }

  lemma {:induction false} MaxDepthBound(r: Plan, m: nat, n: nat)
    requires r.Split? && m <= |r.kids|
    requires forall k :: 0 <= k < m ==> Depth(r.kids[k].plan) <= n
    ensures MaxDepth(r, m) <= n
  {
    if m > 0 {
      MaxDepthBound(r, m - 1, n);
    }
  }

  /** Every look a plan draws with. */
  function Draws(r: Plan): set<Look>
    decreases r
  {
    match r
    case Drawn(x) => {x}
    case Split(kids) => KidDraws(r, |kids|)
    case _ => {}
  }

  /** The looks the first n children of a split plan draw with. */
  function KidDraws(r: Plan, n: nat): set<Look>
    requires r.Split? && n <= |r.kids|
    decreases r, n
  {
    if n == 0 then {} else KidDraws(r, n - 1) + Draws(r.kids[n - 1].plan)
  }

  /** Every node with the loaded bit clear holds textures (or none), never archive indices. */
  ghost predicate LoadedReal(a: Arena)
  {
    forall x :: 0 <= x < |a| && a[x].Some? && a[x].value.flag & NOT_LOADED == 0 ==>
      !a[x].value.tex.Index? && !a[x].value.ltex.Index?
  }

  /** A look `RenderTile` can use: real textures over a part of them. */
  predicate Drawable(x: Look)
  {
    Inside(x.range) && !x.tex.Index? && !x.ltex.Index?
  }

  /**
   * The walk never draws with an archive index in place of a texture, and
   * every range it draws with lies inside the texture: it draws only with
   * the looks it was given, quadrants of them, or the own textures of
   * loaded nodes.
   */
  lemma {:induction false} DrawsReal(a: Arena, cam: Camera, p: Patch, t: Tile, look: Look, bkp: Look)
    requires LoadedReal(a) && Drawable(look) && Drawable(bkp)
    ensures forall x :: x in Draws(Process(a, cam, p, t, look, bkp)) ==> Drawable(x)
    decreases cam.tgtlvl - p.lvl, 1
  {
    var r := Process(a, cam, p, t, look, bkp);
    if r.Split? {
      forall k | 0 <= k < 4 ensures forall x :: x in Draws(r.kids[k].plan) ==> Drawable(x) {
        KidDrawsReal(a, cam, p, t, look, k);
      }
      KidDrawsBound(r, 4);
    }
  }

  lemma {:induction false} KidDrawsReal(a: Arena, cam: Camera, p: Patch, t: Tile, look: Look, k: nat)
    requires LoadedReal(a) && Drawable(look) && p.lvl < cam.tgtlvl && k < 4
    ensures forall x :: x in Draws(KidOf(a, cam, p, t, look, k).plan) ==> Drawable(x)
    decreases cam.tgtlvl - p.lvl, 0
  {
    var c := t.subtile[k];
    var child := ChildTile(a, c);
    var own := c.Some? && child.flag & NOT_LOADED == 0 && child.tex != Null;
    SubRangeInside(look.range, k);
    DrawsReal(a, cam, ChildPatch(p, k), child, KidLook(child, own, look, k), Quadrant(look, k));
  }

  lemma {:induction false} KidDrawsBound(r: Plan, n: nat)
    requires r.Split? && n <= |r.kids|
    requires forall k :: 0 <= k < n ==> forall x :: x in Draws(r.kids[k].plan) ==> Drawable(x)
    ensures forall x :: x in KidDraws(r, n) ==> Drawable(x)
  {
    if n > 0 {
      KidDrawsBound(r, n - 1);
    }
  }

  /** The nodes whose textures a plan requests from the loader. */
  function Requests(r: Plan): set<nat>
    decreases r
  {
    if r.Split? then KidRequests(r, |r.kids|) else {}
  }

  /** The requests of the first n children of a split plan and of their plans. */
  function KidRequests(r: Plan, n: nat): set<nat>
    requires r.Split? && n <= |r.kids|
    decreases r, n
  {
    if n == 0 then {}
    else
      var k := r.kids[n - 1];
      KidRequests(r, n - 1) + (if k.queued && k.link.Some? then {k.link.value} else {}) + Requests(k.plan)
  }

  /** The walk requests textures only for existing nodes that are still waiting for theirs. */
  lemma {:induction false} RequestsPending(a: Arena, cam: Camera, p: Patch, t: Tile, look: Look, bkp: Look)
    ensures forall x :: x in Requests(Process(a, cam, p, t, look, bkp)) ==>
      x < |a| && a[x].Some? && a[x].value.flag & NOT_LOADED != 0
    decreases cam.tgtlvl - p.lvl, 1
  {
    var r := Process(a, cam, p, t, look, bkp);
    if r.Split? {
      forall k | 0 <= k < 4 ensures KidPending(a, r.kids[k]) {
        KidRequestsPending(a, cam, p, t, look, k);
      }
      KidRequestsBound(a, r, 4);
    }
  }

  /** The request of one child and those of its plan are for waiting nodes. */
  ghost predicate KidPending(a: Arena, kid: Kid)
  {
    (kid.queued && kid.link.Some? ==> kid.link.value < |a| && a[kid.link.value].Some? && a[kid.link.value].value.flag & NOT_LOADED != 0) &&
    forall x :: x in Requests(kid.plan) ==> x < |a| && a[x].Some? && a[x].value.flag & NOT_LOADED != 0
  }

  lemma {:induction false} KidRequestsPending(a: Arena, cam: Camera, p: Patch, t: Tile, look: Look, k: nat)
    requires p.lvl < cam.tgtlvl && k < 4
    ensures KidPending(a, KidOf(a, cam, p, t, look, k))
    decreases cam.tgtlvl - p.lvl, 0
  {
    var c := t.subtile[k];
    var child := ChildTile(a, c);
    var own := c.Some? && child.flag & NOT_LOADED == 0 && child.tex != Null;
    RequestsPending(a, cam, ChildPatch(p, k), child, KidLook(child, own, look, k), Quadrant(look, k));
  }

  lemma {:induction false} KidRequestsBound(a: Arena, r: Plan, n: nat)
    requires r.Split? && n <= |r.kids|
    requires forall k :: 0 <= k < n ==> KidPending(a, r.kids[k])
    ensures forall x :: x in KidRequests(r, n) ==> x < |a| && a[x].Some? && a[x].value.flag & NOT_LOADED != 0
  {
    if n > 0 {
      KidRequestsBound(a, r, n - 1);
    }
  }

  // ---------------------------------------------------------------------
  // The base patches `Render` walks

  /** Band b of hemisphere h at level l, west to east. */
  function Row(l: int, h: int, b: nat): (r: seq<Patch>)
    requires 5 <= l <= 8 && b < NLAT[l]
    ensures |r| == Nlng(l)[b]
    ensures forall k :: 0 <= k < |r| ==> r[k] == Patch(l, h, b, NLAT[l], k, Nlng(l)[b])
  {
    seq(Nlng(l)[b], k => Patch(l, h, b, NLAT[l], k, Nlng(l)[b]))
  }

  /** The first m bands of hemisphere h, from the polar band (:524) down to the equator. */
  function Bands(l: int, h: int, m: nat): seq<Patch>
    requires 5 <= l <= 8 && m <= NLAT[l]
  {
    if m == 0 then [] else Bands(l, h, m - 1) + Row(l, h, NLAT[l] - m)
  }

  /** The patches of the first n hemispheres, northern first. */
  function Hemispheres(l: int, n: nat): seq<Patch>
    requires 5 <= l <= 8 && n <= 2
  {
    if n == 0 then [] else Hemispheres(l, n - 1) + Bands(l, n - 1, NLAT[l])
  }

  /**
   * The loops of `Render` (:520-533) at start level l: the patch processed
   * with base tile `texofs + idx` is element idx of the result.
   */
  method BasePatches(l: int) returns (ps: seq<Patch>)
    requires 5 <= l <= 8
    ensures ps == Hemispheres(l, 2)
  {
    ps := [];
    for hemisp := 0 to 2
      invariant ps == Hemispheres(l, hemisp)
    {
      ps := AppendHemisphere(ps, l, hemisp);
    }
  }

  /** The latitude loop of `Render` (:524-532): the bands of hemisphere h, polar band first. */
  method AppendHemisphere(ps: seq<Patch>, l: int, h: int) returns (ps': seq<Patch>)
    requires 5 <= l <= 8
    ensures ps' == ps + Bands(l, h, NLAT[l])
  {
    var nlat := NLAT[l];
    ps' := ps;
    var ilat := nlat - 1;
    ghost var m: nat := 0;
    while ilat >= 0
      invariant -1 <= ilat < nlat && m == nlat - 1 - ilat
      invariant ps' == ps + Bands(l, h, m)
    {
      ghost var before := ps';
      ps' := AppendRow(ps', l, h, ilat);
      BandsNext(ps, before, l, h, m);
      ilat, m := ilat - 1, m + 1;
    }
  }

  lemma BandsNext(ps: seq<Patch>, before: seq<Patch>, l: int, h: int, m: nat)
    requires 5 <= l <= 8 && m < NLAT[l] && before == ps + Bands(l, h, m)
    ensures before + Row(l, h, NLAT[l] - 1 - m) == ps + Bands(l, h, m + 1)
  {
    assert Bands(l, h, m + 1) == Bands(l, h, m) + Row(l, h, NLAT[l] - 1 - m);
  }

  /** The innermost loop of `Render` (:526-531): band b, west to east. */
  method AppendRow(ps: seq<Patch>, l: int, h: int, b: nat) returns (ps': seq<Patch>)
    requires 5 <= l <= 8 && b < NLAT[l]
    ensures ps' == ps + Row(l, h, b)
  {
    var nlng := Nlng(l);
    ps' := ps;
    for ilng := 0 to nlng[b]
      invariant ps' == ps + Row(l, h, b)[..ilng]
    {
      ps' := ps' + [Patch(l, h, b, NLAT[l], ilng, nlng[b])];
      assert Row(l, h, b)[..ilng + 1] == Row(l, h, b)[..ilng] + [Row(l, h, b)[ilng]];
    }
    assert Row(l, h, b)[..nlng[b]] == Row(l, h, b);
  }

  /** The bands seen so far hold the patches of the last m bands, all on the grid. */
  lemma {:induction false} BandsShape(l: int, h: int, m: nat)
    requires 5 <= l <= 8 && m <= NLAT[l] && 0 <= h < 2
    ensures |Bands(l, h, m)| == PartialBand(l, NLAT[l]) - PartialBand(l, NLAT[l] - m)
    ensures forall q :: 0 <= q < |Bands(l, h, m)| ==> OnGrid(Bands(l, h, m)[q]) && Bands(l, h, m)[q].lvl == l
  {
    if m > 0 {
      BandsShape(l, h, m - 1);
      var b := NLAT[l] - m;
      var a, r := Bands(l, h, m - 1), Row(l, h, b);
      assert Bands(l, h, m) == a + r;
      assert PartialBand(l, b + 1) == PartialBand(l, b) + Nlng(l)[b];
      forall q | 0 <= q < |a + r| ensures OnGrid((a + r)[q]) && (a + r)[q].lvl == l {
        if q < |a| {
          assert (a + r)[q] == a[q];
        } else {
          assert (a + r)[q] == r[q - |a|];
        }
      }
    }
  }

  /**
   * `Render` walks exactly as many base patches as `patchidx` reserves for
   * the start level, so `td + idx` stays inside the level's block; every
   * patch walked lies on the level's grid.
   */
  lemma BasePatchesFit(l: int)
    requires 5 <= l <= 8
    ensures |Hemispheres(l, 2)| == PATCHIDX[l] - PATCHIDX[l - 1]
    ensures forall q :: 0 <= q < |Hemispheres(l, 2)| ==> OnGrid(Hemispheres(l, 2)[q]) && Hemispheres(l, 2)[q].lvl == l
  {
    BasePatchesSize(l);
    HemispheresShape(l, 2);
  }

  lemma {:induction false} HemispheresShape(l: int, n: nat)
    requires 5 <= l <= 8 && n <= 2
    ensures forall q :: 0 <= q < |Hemispheres(l, n)| ==> OnGrid(Hemispheres(l, n)[q]) && Hemispheres(l, n)[q].lvl == l
  {
    if n > 0 {
      var a, b := Hemispheres(l, n - 1), Bands(l, n - 1, NLAT[l]);
      HemispheresShape(l, n - 1);
      BandsShape(l, n - 1, NLAT[l]);
      assert Hemispheres(l, n) == a + b;
      forall q | 0 <= q < |a + b| ensures OnGrid((a + b)[q]) && (a + b)[q].lvl == l {
        if q < |a| {
          assert (a + b)[q] == a[q];
        } else {
          assert (a + b)[q] == b[q - |a|];
        }
      }
    }
  }

  lemma BasePatchesSize(l: int)
    requires 5 <= l <= 8
    ensures |Hemispheres(l, 2)| == PATCHIDX[l] - PATCHIDX[l - 1] && PATCHIDX[l - 1] < PATCHIDX[l]
  {
    BandsShape(l, 0, NLAT[l]);
    BandsShape(l, 1, NLAT[l]);
    BandTotal(l);
    LevelBlockSize(l);
    PatchIdxIncreasing(l - 1, l);
    assert Hemispheres(l, 2) == Bands(l, 0, NLAT[l]) + Bands(l, 1, NLAT[l]);
  }

  lemma BandTotal(l: int)
    requires 5 <= l <= 8
    ensures PartialBand(l, NLAT[l]) == BandPatches(l)
  {
    var s := Nlng(l);
    var k := 0;
    while k < |s|
      invariant 0 <= k <= |s|
      invariant Sum(s[..k]) == PartialBand(l, k)
    {
      assert s[..k + 1][..k] == s[..k];
      k := k + 1;
    }
    assert s[..|s|] == s;
  }

  // ---------------------------------------------------------------------
  // The walk of `Render`

  /** The level `Render` starts at (:494): the target level, at most 8. */
  function StartLevel(level: int): int
  {
    if level < 8 then level else 8
  }

  /**
   * `Render` above level 4 (:505-535): base patch idx of the start level is
   * walked with base tile `texofs + idx` of `tiledesc` and that tile's own
   * textures as both look and fallback.
   */
  function Walk(a: Arena, d: seq<Tile>, cam: Camera): (r: seq<Plan>)
    requires 5 <= cam.tgtlvl && PATCHIDX[StartLevel(cam.tgtlvl)] <= |d|
    ensures |r| == PATCHIDX[StartLevel(cam.tgtlvl)] - PATCHIDX[StartLevel(cam.tgtlvl) - 1]
  {
    var l := StartLevel(cam.tgtlvl);
    var ps := Hemispheres(l, 2);
    var o := PATCHIDX[l - 1];
    BasePatchesSize(l);
    seq(|ps|, idx requires 0 <= idx < |ps| => Process(a, cam, ps[idx], d[o + idx], OwnLook(d[o + idx]), OwnLook(d[o + idx])))
  }

  /** The base tiles of the start level hold textures (or none) over their whole range. */
  ghost predicate BaseReal(d: seq<Tile>, l: int)
    requires 5 <= l <= 8 && PATCHIDX[l] <= |d|
  {
    forall i :: PATCHIDX[l - 1] <= i < PATCHIDX[l] ==> !d[i].tex.Index? && !d[i].ltex.Index?
  }

  /** Over the whole walk no patch steps down below the target level. */
  lemma WalkDepth(a: Arena, d: seq<Tile>, cam: Camera)
    requires 5 <= cam.tgtlvl && PATCHIDX[StartLevel(cam.tgtlvl)] <= |d|
    ensures forall idx :: 0 <= idx < |Walk(a, d, cam)| ==>
      Depth(Walk(a, d, cam)[idx]) <= cam.tgtlvl - StartLevel(cam.tgtlvl)
  {
    var l := StartLevel(cam.tgtlvl);
    var w := Walk(a, d, cam);
    forall idx | 0 <= idx < |w|
      ensures Depth(w[idx]) <= cam.tgtlvl - l
    {
      WalkPlanDepth(a, d, cam, idx);
    }
  }

  lemma WalkPlanDepth(a: Arena, d: seq<Tile>, cam: Camera, idx: nat)
    requires 5 <= cam.tgtlvl && PATCHIDX[StartLevel(cam.tgtlvl)] <= |d| && idx < |Walk(a, d, cam)|
    ensures Depth(Walk(a, d, cam)[idx]) <= cam.tgtlvl - StartLevel(cam.tgtlvl)
  {
    var l := StartLevel(cam.tgtlvl);
    var o := PATCHIDX[l - 1];
    WalkAt(a, d, cam, idx);
    BasePatchesFit(l);
    var p := Hemispheres(l, 2)[idx];
    assert p.lvl == l;
    ProcessDepth(a, cam, p, d[o + idx], OwnLook(d[o + idx]), OwnLook(d[o + idx]));
  }

  /** Plan idx of the walk is base patch idx processed with base tile `texofs + idx`. */
  lemma WalkAt(a: Arena, d: seq<Tile>, cam: Camera, idx: nat)
    requires 5 <= cam.tgtlvl && PATCHIDX[StartLevel(cam.tgtlvl)] <= |d| && idx < |Walk(a, d, cam)|
    ensures var l := StartLevel(cam.tgtlvl);
      var o := PATCHIDX[l - 1];
      idx < |Hemispheres(l, 2)| && o + idx < |d| &&
      Walk(a, d, cam)[idx] == Process(a, cam, Hemispheres(l, 2)[idx], d[o + idx], OwnLook(d[o + idx]), OwnLook(d[o + idx]))
  {
    BasePatchesSize(StartLevel(cam.tgtlvl));
  }

  /**
   * Over the whole walk nothing is drawn with an archive index or outside
   * its texture, when the loaded nodes and the base tiles hold textures.
   */
  lemma WalkDrawable(a: Arena, d: seq<Tile>, cam: Camera)
    requires 5 <= cam.tgtlvl && PATCHIDX[StartLevel(cam.tgtlvl)] <= |d|
    requires LoadedReal(a) && BaseReal(d, StartLevel(cam.tgtlvl))
    ensures forall idx, x :: 0 <= idx < |Walk(a, d, cam)| && x in Draws(Walk(a, d, cam)[idx]) ==> Drawable(x)
  {
    var l := StartLevel(cam.tgtlvl);
    var ps := Hemispheres(l, 2);
    var o := PATCHIDX[l - 1];
    var w := Walk(a, d, cam);
    forall idx | 0 <= idx < |w|
      ensures forall x :: x in Draws(w[idx]) ==> Drawable(x)
    {
      WalkAt(a, d, cam, idx);
      DrawsReal(a, cam, ps[idx], d[o + idx], OwnLook(d[o + idx]), OwnLook(d[o + idx]));
    }
  }
}
