/**
 * The base tiles of levels 1..8 and the pool trees hanging from them. Only
 * level-8 tiles ever get children (the pool holds levels 9..14), so every
 * base tile's links are bounded by the height of a level-8 subtree.
 * `Forest` says every base tile's links are sound and no two base tiles
 * share a pool slot.
 */
module Forests {
  import opened TileTypes
  import opened TileArena

  /** Height bound of the links of a level-8 tile: levels 9..14 below it. */
  const BASE_HEIGHT: nat := 6

  ghost predicate Forest(a: Arena, base: seq<Tile>)
  {
    (forall i :: 0 <= i < |base| ==> TileSound(a, base[i].subtile, BASE_HEIGHT)) &&
    (forall i, j :: 0 <= i < j < |base| ==>
       Below(a, base[i].subtile, BASE_HEIGHT) !! Below(a, base[j].subtile, BASE_HEIGHT))
  }

  /** Base tiles without children form a forest over any pool. */
  lemma EmptyForest(a: Arena, base: seq<Tile>)
    requires forall i, k :: 0 <= i < |base| && 0 <= k < 4 ==> base[i].subtile[k].None?
    ensures Forest(a, base)
  {
    forall i | 0 <= i < |base| ensures TileSound(a, base[i].subtile, BASE_HEIGHT) && Below(a, base[i].subtile, BASE_HEIGHT) == {} {
      LeafSound(a, base[i].subtile, BASE_HEIGHT);
    }
  }

  /** Only the links of the base tiles matter. */
  lemma ForestLinks(a: Arena, base: seq<Tile>, base': seq<Tile>)
    requires Forest(a, base)
    requires |base'| == |base| && forall i :: 0 <= i < |base| ==> base'[i].subtile == base[i].subtile
    ensures Forest(a, base')
  {
  }

  /**
   * Base tile i gets links `sub'` over a new pool b: sound, hanging only
   * over its own old slots or slots that were empty, while every other
   * occupied slot is left alone. The forest survives.
   */
  lemma ForestStep(a: Arena, b: Arena, base: seq<Tile>, i: nat, sub': Subtiles)
    requires Forest(a, base) && i < |base|
    requires TileSound(b, sub', BASE_HEIGHT)
    requires forall x :: x in Below(b, sub', BASE_HEIGHT) ==> x in Below(a, base[i].subtile, BASE_HEIGHT) || !Live(a, x)
    requires forall x: nat :: Live(a, x) && x !in Below(a, base[i].subtile, BASE_HEIGHT) ==> x < |b| && b[x] == a[x]
    ensures Forest(b, base[i := base[i].(subtile := sub')])
  {
    var h := BASE_HEIGHT;
    var base' := base[i := base[i].(subtile := sub')];
    forall k | 0 <= k < |base| && k != i
      ensures TileSound(b, base[k].subtile, h) && Below(b, base[k].subtile, h) == Below(a, base[k].subtile, h)
    {
      OtherTileKept(a, b, base, i, k);
    }
    forall k, k' | 0 <= k < k' < |base'|
      ensures Below(b, base'[k].subtile, h) !! Below(b, base'[k'].subtile, h)
    {
      if k == i || k' == i {
        var o := if k == i then k' else k;
        forall x | x in Below(b, sub', h) ensures x !in Below(a, base[o].subtile, h) {
          if x in Below(a, base[o].subtile, h) {
            BelowLive(a, base[o].subtile, h, x);
          }
        }
      }
    }
  }

  /** A base tile other than i keeps its links and everything below them. */
  lemma OtherTileKept(a: Arena, b: Arena, base: seq<Tile>, i: nat, k: nat)
    requires Forest(a, base) && i < |base| && k < |base| && k != i
    requires forall x: nat :: Live(a, x) && x !in Below(a, base[i].subtile, BASE_HEIGHT) ==> x < |b| && b[x] == a[x]
    ensures TileSound(b, base[k].subtile, BASE_HEIGHT)
    ensures Below(b, base[k].subtile, BASE_HEIGHT) == Below(a, base[k].subtile, BASE_HEIGHT)
  {
    var h := BASE_HEIGHT;
    forall x | x in Below(a, base[k].subtile, h) ensures SameShape(a, b, x) {
      BelowLive(a, base[k].subtile, h, x);
      if k < i {
        assert x !in Below(a, base[i].subtile, h);
      } else {
        assert x !in Below(a, base[i].subtile, h);
      }
    }
    TileFrame(a, b, base[k].subtile, h);
  }
}
