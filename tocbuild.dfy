/**
 * The pool trees that `AddSubtileData` builds from the table of contents,
 * and why building one leaves every other tree of the pool alone.
 *
 * `Built(a, s, tfs, e, lvl, cfg)` says that slot s holds the node for entry
 * e at level `lvl` and that, for every child the entry names, the node links
 * to the node built for it — or to nothing, when the child entry is not
 * wanted or lies beyond the highest level. A freshly built tree only uses
 * slots that were empty before (`FreshTree`), and every slot that held a
 * node keeps it (`Extends`).
 */
module TocBuild {
  import opened TileTypes
  import opened TileArena
  import opened Toc

  /** Height bound of the subtree of a node at level `lvl`. */
  function H(lvl: int): nat
    requires lvl <= SURF_MAX_PATCHLEVEL
  {
    SURF_MAX_PATCHLEVEL - lvl
  }

  /** Every slot that held a node in a still holds it in b. */
  ghost predicate Extends(a: Arena, b: Arena)
  {
    |a| <= |b| && forall x :: 0 <= x < |a| && a[x].Some? ==> b[x] == a[x]
  }

  lemma ExtendsTrans(a: Arena, b: Arena, c: Arena)
    requires Extends(a, b) && Extends(b, c)
    ensures Extends(a, c)
  {
  }

  /** The subtree at s in b uses only slots that held no node in a. */
  ghost predicate FreshTree(a: Arena, b: Arena, s: nat, h: nat)
  {
    forall x :: x in Tree(b, s, h) ==> !Live(a, x)
  }

  ghost predicate Built(a: Arena, s: nat, tfs: seq<TileFileSpec>, e: nat, lvl: int, cfg: TocConfig)
    requires TocClosed(tfs) && e < |tfs|
    decreases Depth(lvl, cfg), 0
  {
    Live(a, s) && lvl <= cfg.maxlvl && Wanted(tfs[e]) &&
    a[s].value == TocNode(tfs[e], cfg, s).(subtile := a[s].value.subtile) &&
    forall j :: 0 <= j < 4 ==> ChildLink(a, a[s].value.subtile[j], tfs, tfs[e].subidx[j], lvl + 1, cfg)
  }

  /** The link for child number e of a built node (0: no child). */
  ghost predicate ChildLink(a: Arena, link: Option<nat>, tfs: seq<TileFileSpec>, e: nat, lvl: int, cfg: TocConfig)
    requires TocClosed(tfs) && e < |tfs|
    decreases Depth(lvl, cfg), 2
  {
    if e == 0 then link.None? else Placed(a, link, tfs, e, lvl, cfg)
  }

  /** The link a node gets for entry e at level `lvl`, when it started out empty. */
  ghost predicate Placed(a: Arena, link: Option<nat>, tfs: seq<TileFileSpec>, e: nat, lvl: int, cfg: TocConfig)
    requires TocClosed(tfs) && e < |tfs|
    decreases Depth(lvl, cfg), 1
  {
    if Wanted(tfs[e]) && lvl <= cfg.maxlvl then link.Some? && Built(a, link.value, tfs, e, lvl, cfg)
    else link.None?
  }

  /** A built tree stays built while the slots of its subtree keep their contents. */
  lemma {:induction false} BuiltFrame(a: Arena, b: Arena, s: nat, tfs: seq<TileFileSpec>, e: nat, lvl: int, cfg: TocConfig)
    requires TocClosed(tfs) && e < |tfs| && cfg.maxlvl <= SURF_MAX_PATCHLEVEL
    requires Built(a, s, tfs, e, lvl, cfg)
    requires forall x :: x in Tree(a, s, H(lvl)) ==> x < |a| && x < |b| && b[x] == a[x]
    ensures Built(b, s, tfs, e, lvl, cfg)
    decreases Depth(lvl, cfg)
  {
    var h := H(lvl);
    assert s in Tree(a, s, h);
    var sub := a[s].value.subtile;
    assert b[s] == a[s];
    forall j | 0 <= j < 4
      ensures ChildLink(b, sub[j], tfs, tfs[e].subidx[j], lvl + 1, cfg)
    {
      var ej := tfs[e].subidx[j];
      assert ChildLink(a, sub[j], tfs, ej, lvl + 1, cfg);
      if ej != 0 && Wanted(tfs[ej]) && lvl + 1 <= cfg.maxlvl {
        assert Placed(a, sub[j], tfs, ej, lvl + 1, cfg);
        BranchInBelow(a, sub, h, j);
        BuiltFrame(a, b, sub[j].value, tfs, ej, lvl + 1, cfg);
        assert Placed(b, sub[j], tfs, ej, lvl + 1, cfg);
      } else if ej != 0 {
        assert Placed(a, sub[j], tfs, ej, lvl + 1, cfg);
      }
    }
  }

  /**
   * The loop over the children of a node under construction: the node for
   * entry e sits in slot s, the links of its first j children are built,
   * the others are still empty, and its subtree is sound and fresh with
   * respect to a0, the pool before the node was made.
   */
  ghost predicate ChildrenBuilt(a0: Arena, a: Arena, s: nat, tfs: seq<TileFileSpec>, e: nat, lvl: int, cfg: TocConfig, j: nat)
    requires TocClosed(tfs) && e < |tfs|
  {
    j <= 4 && cfg.maxlvl <= SURF_MAX_PATCHLEVEL && Extends(a0, a) &&
    Live(a, s) && lvl <= cfg.maxlvl && Wanted(tfs[e]) &&
    a[s].value == TocNode(tfs[e], cfg, s).(subtile := a[s].value.subtile) &&
    (forall k :: 0 <= k < j ==> ChildLink(a, a[s].value.subtile[k], tfs, tfs[e].subidx[k], lvl + 1, cfg)) &&
    (forall k :: j <= k < 4 ==> a[s].value.subtile[k].None?) &&
    NodeSound(a, s, H(lvl)) && FreshTree(a0, a, s, H(lvl))
  }

  /** The node just made from entry e, with no children yet, starts the loop. */
  lemma ChildrenStart(a0: Arena, g: Arena, s: nat, tfs: seq<TileFileSpec>, e: nat, lvl: int, cfg: TocConfig)
    requires TocClosed(tfs) && e < |tfs| && cfg.maxlvl <= SURF_MAX_PATCHLEVEL
    requires lvl <= cfg.maxlvl && Wanted(tfs[e])
    requires Extends(a0, g) && s < |g| && g[s].None?
    ensures ChildrenBuilt(a0, g[s := Some(TocNode(tfs[e], cfg, s))], s, tfs, e, lvl, cfg, 0)
  {
    var t := TocNode(tfs[e], cfg, s);
    var a := g[s := Some(t)];
    LeafSound(g, t.subtile, H(lvl));
    WriteNode(g, s, t, H(lvl));
    assert Tree(a, s, H(lvl)) == {s};
  }

  /**
   * One step of the loop: child j has been handled by the recursive call,
   * which took the pool from a to a' and returned the node's links `sub'`,
   * and the node is written back with those links.
   */
  lemma ChildrenStep(a0: Arena, a: Arena, a': Arena, s: nat, tfs: seq<TileFileSpec>, e: nat, lvl: int, cfg: TocConfig,
                     j: nat, sub': Subtiles)
    requires TocClosed(tfs) && e < |tfs| && j < 4
    requires ChildrenBuilt(a0, a, s, tfs, e, lvl, cfg, j)
    requires Extends(a, a')
    requires forall k :: 0 <= k < 4 && k != j ==> sub'[k] == a[s].value.subtile[k]
    requires tfs[e].subidx[j] == 0 ==> sub'[j].None?
    requires tfs[e].subidx[j] != 0 ==> Placed(a', sub'[j], tfs, tfs[e].subidx[j], lvl + 1, cfg)
    requires sub'[j].Some? ==> lvl + 1 <= SURF_MAX_PATCHLEVEL && NodeSound(a', sub'[j].value, H(lvl + 1)) &&
                               FreshTree(a, a', sub'[j].value, H(lvl + 1))
    ensures ChildrenBuilt(a0, a'[s := Some(a[s].value.(subtile := sub'))], s, tfs, e, lvl, cfg, j + 1)
  {
    var b := a'[s := Some(a[s].value.(subtile := sub'))];
    ShapeStep(a0, a, a', s, H(lvl), j, sub');
    LinksStep(a, a', s, tfs, e, lvl, cfg, j, sub');
  }

  /** The node's subtree after storing the new links: sound, and still fresh. */
  lemma ShapeStep(a0: Arena, a: Arena, a': Arena, s: nat, h: nat, j: nat, sub': Subtiles)
    requires j < 4 && Extends(a0, a) && Extends(a, a')
    requires NodeSound(a, s, h) && FreshTree(a0, a, s, h)
    requires forall k :: 0 <= k < 4 && k != j ==> sub'[k] == a[s].value.subtile[k]
    requires a[s].value.subtile[j].None?
    requires sub'[j].Some? ==> h > 0 && NodeSound(a', sub'[j].value, h - 1) && FreshTree(a, a', sub'[j].value, h - 1)
    ensures var b := a'[s := Some(a[s].value.(subtile := sub'))];
      NodeSound(b, s, h) && FreshTree(a0, b, s, h) && Extends(a0, b)
  {
    var sub := a[s].value.subtile;
    var t' := a[s].value.(subtile := sub');
    var b := a'[s := Some(t')];
    assert s in Tree(a, s, h);
    assert TileSound(a, sub, h);
    if sub'[j].Some? {
      forall i, x | 0 <= i < 4 && i != j && sub[i].Some? && x in Tree(a, sub[i].value, h - 1)
        ensures SameShape(a, a', x)
      {
        TreeLive(a, sub[i].value, h - 1, x);
      }
      StepChild(a, a', sub, sub', j, h);
    } else {
      forall x | x in Below(a, sub, h) ensures SameShape(a, a', x) {
        BelowLive(a, sub, h, x);
      }
      TileFrame(a, a', sub, h);
      assert sub' == sub;
    }
    assert s !in Below(a', sub', h);
    WriteNode(a', s, t', h);
    forall x | x in Tree(b, s, h) ensures !Live(a0, x) {
      if x != s {
        assert x in Below(a', sub', h);
      }
    }
  }

  /** The links of the node after storing the new ones: the first j + 1 are built. */
  lemma LinksStep(a: Arena, a': Arena, s: nat, tfs: seq<TileFileSpec>, e: nat, lvl: int, cfg: TocConfig,
                  j: nat, sub': Subtiles)
    requires TocClosed(tfs) && e < |tfs| && j < 4 && cfg.maxlvl <= SURF_MAX_PATCHLEVEL && lvl <= cfg.maxlvl
    requires Live(a, s) && NodeSound(a, s, H(lvl)) && Extends(a, a')
    requires forall k :: 0 <= k < j ==> ChildLink(a, a[s].value.subtile[k], tfs, tfs[e].subidx[k], lvl + 1, cfg)
    requires forall k :: 0 <= k < 4 && k != j ==> sub'[k] == a[s].value.subtile[k]
    requires tfs[e].subidx[j] == 0 ==> sub'[j].None?
    requires tfs[e].subidx[j] != 0 ==> Placed(a', sub'[j], tfs, tfs[e].subidx[j], lvl + 1, cfg)
    requires sub'[j].Some? ==> lvl + 1 <= SURF_MAX_PATCHLEVEL && NodeSound(a', sub'[j].value, H(lvl + 1)) &&
                               FreshTree(a, a', sub'[j].value, H(lvl + 1))
    ensures var b := a'[s := Some(a[s].value.(subtile := sub'))];
      forall k :: 0 <= k < j + 1 ==> ChildLink(b, sub'[k], tfs, tfs[e].subidx[k], lvl + 1, cfg)
  {
    var h := H(lvl);
    var sub := a[s].value.subtile;
    var b := a'[s := Some(a[s].value.(subtile := sub'))];
    assert s in Tree(a, s, h);
    assert TileSound(a, sub, h);
    forall k | 0 <= k < j + 1
      ensures ChildLink(b, sub'[k], tfs, tfs[e].subidx[k], lvl + 1, cfg)
    {
      var ek := tfs[e].subidx[k];
      if ek != 0 && Wanted(tfs[ek]) && lvl + 1 <= cfg.maxlvl {
        var h1 := H(lvl + 1);
        assert h1 == h - 1;
        if k < j {
          assert ChildLink(a, sub[k], tfs, ek, lvl + 1, cfg);
          assert Placed(a, sub[k], tfs, ek, lvl + 1, cfg);
          var c := sub[k].value;
          BranchInBelow(a, sub, h, k);
          forall x | x in Tree(a, c, h1) ensures x < |a| && x < |b| && b[x] == a[x] {
            BelowLive(a, sub, h, x);
          }
          BuiltFrame(a, b, c, tfs, ek, lvl + 1, cfg);
          assert Placed(b, sub'[k], tfs, ek, lvl + 1, cfg);
        } else {
          assert Placed(a', sub'[k], tfs, ek, lvl + 1, cfg);
          var c := sub'[k].value;
          forall x | x in Tree(a', c, h1) ensures x < |a'| && x < |b| && b[x] == a'[x] {
            TreeLive(a', c, h1, x);
          }
          BuiltFrame(a', b, c, tfs, ek, lvl + 1, cfg);
          assert Placed(b, sub'[k], tfs, ek, lvl + 1, cfg);
        }
      } else if k < j {
        assert ChildLink(a, sub[k], tfs, ek, lvl + 1, cfg);
        if ek != 0 {
          assert Placed(a, sub[k], tfs, ek, lvl + 1, cfg);
        }
      } else if ek != 0 {
        assert Placed(a', sub'[k], tfs, ek, lvl + 1, cfg);
      }
    }
  }

  /**
   * The result of building the node for entry e at s: a0 was the pool
   * before, a is the pool after.
   */
  ghost predicate NodeBuilt(a0: Arena, a: Arena, s: nat, tfs: seq<TileFileSpec>, e: nat, lvl: int, cfg: TocConfig)
    requires TocClosed(tfs) && e < |tfs|
  {
    Extends(a0, a) && Built(a, s, tfs, e, lvl, cfg) && lvl <= SURF_MAX_PATCHLEVEL &&
    NodeSound(a, s, H(lvl)) && FreshTree(a0, a, s, H(lvl))
  }

  /** After the fourth child the node is built. */
  lemma ChildrenEnd(a0: Arena, a: Arena, s: nat, tfs: seq<TileFileSpec>, e: nat, lvl: int, cfg: TocConfig)
    requires TocClosed(tfs) && e < |tfs|
    requires ChildrenBuilt(a0, a, s, tfs, e, lvl, cfg, 4)
    ensures NodeBuilt(a0, a, s, tfs, e, lvl, cfg)
  {
  }

  /** A node built at the highest level is a leaf: none of its links is set. */
  lemma LeafAtMaxLevel(a: Arena, s: nat, tfs: seq<TileFileSpec>, e: nat, cfg: TocConfig)
    requires TocClosed(tfs) && e < |tfs|
    requires Built(a, s, tfs, e, cfg.maxlvl, cfg)
    ensures forall j :: 0 <= j < 4 ==> a[s].value.subtile[j].None?
  {
    forall j | 0 <= j < 4 ensures a[s].value.subtile[j].None? {
      var ej := tfs[e].subidx[j];
      assert ChildLink(a, a[s].value.subtile[j], tfs, ej, cfg.maxlvl + 1, cfg);
      if ej != 0 {
        assert Placed(a, a[s].value.subtile[j], tfs, ej, cfg.maxlvl + 1, cfg);
      }
    }
  }

  /** A placed link stays placed while every occupied slot keeps its node. */
  lemma PlacedExtends(a: Arena, b: Arena, link: Option<nat>, tfs: seq<TileFileSpec>, e: nat, lvl: int, cfg: TocConfig)
    requires TocClosed(tfs) && e < |tfs| && cfg.maxlvl <= SURF_MAX_PATCHLEVEL
    requires Placed(a, link, tfs, e, lvl, cfg) && Extends(a, b)
    requires link.Some? ==> lvl <= SURF_MAX_PATCHLEVEL && NodeSound(a, link.value, H(lvl))
    ensures Placed(b, link, tfs, e, lvl, cfg)
  {
    if link.Some? {
      forall x | x in Tree(a, link.value, H(lvl)) ensures x < |a| && x < |b| && b[x] == a[x] {
        TreeLive(a, link.value, H(lvl), x);
      }
      BuiltFrame(a, b, link.value, tfs, e, lvl, cfg);
    }
  }

  /** A node whose entry names no child is complete as soon as it is made. */
  lemma ChildrenNone(a0: Arena, a: Arena, s: nat, tfs: seq<TileFileSpec>, e: nat, lvl: int, cfg: TocConfig)
    requires TocClosed(tfs) && e < |tfs| && !HasSubRefs(tfs[e])
    requires ChildrenBuilt(a0, a, s, tfs, e, lvl, cfg, 0)
    ensures ChildrenBuilt(a0, a, s, tfs, e, lvl, cfg, 4)
  {
    forall k | 0 <= k < 4 ensures tfs[e].subidx[k] == 0 {
      if tfs[e].subidx[k] != 0 {
        assert HasSubRefs(tfs[e]);
      }
    }
  }
}
