/**
 * The slot table of the tile buffer seen as a value, and the shape of the
 * quadtrees whose nodes live in it.
 *
 * A node is identified by its slot. `NodeSound(a, j, h)` says that slot j is
 * occupied by a node that records j as its own slot, that its subtree has
 * height at most h, that the subtrees of different children share no slot and
 * that no node is its own descendant. `Tree(a, j, h)` is the set of slots of
 * the subtree rooted at j; `Below(a, sub, h)` those hanging from the child
 * links `sub`.
 */
module TileArena {
  import opened TileTypes

  type Arena = seq<Option<Tile>>

  ghost predicate Live(a: Arena, j: nat)
  {
    j < |a| && a[j].Some? && a[j].value.ofs == j
  }

  ghost predicate NodeSound(a: Arena, j: nat, h: nat)
    decreases h, 1
  {
    Live(a, j) && TileSound(a, a[j].value.subtile, h) && j !in Below(a, a[j].value.subtile, h)
  }

  ghost predicate TileSound(a: Arena, sub: Subtiles, h: nat)
    decreases h, 0
  {
    (forall k :: 0 <= k < 4 && sub[k].Some? ==> h > 0 && NodeSound(a, sub[k].value, h - 1)) &&
    (forall k, k' :: 0 <= k < k' < 4 && sub[k].Some? && sub[k'].Some? ==>
       h > 0 && Tree(a, sub[k].value, h - 1) !! Tree(a, sub[k'].value, h - 1))
  }

  ghost function Tree(a: Arena, j: nat, h: nat): set<nat>
    decreases h, 1
  {
    {j} + (if j < |a| && a[j].Some? then Below(a, a[j].value.subtile, h) else {})
  }

  ghost function Below(a: Arena, sub: Subtiles, h: nat): set<nat>
    decreases h, 0
  {
    if h == 0 then {} else Branches(a, sub, h - 1, 4)
  }

  /** The union of the subtrees of the first n child links. */
  ghost function Branches(a: Arena, sub: Subtiles, h: nat, n: nat): set<nat>
    requires n <= 4
    decreases h, 3, n
  {
    if n == 0 then {} else Branches(a, sub, h, n - 1) + Branch(a, sub[n - 1], h)
  }

  ghost function Branch(a: Arena, c: Option<nat>, h: nat): set<nat>
    decreases h, 2
  {
    if c.Some? then Tree(a, c.value, h) else {}
  }

  /** Slot x holds a node in both arenas, with the same links and slot number. */
  ghost predicate SameShape(a: Arena, b: Arena, x: nat)
  {
    x < |a| && x < |b| && a[x].Some? && b[x].Some? &&
    b[x].value.subtile == a[x].value.subtile && b[x].value.ofs == a[x].value.ofs
  }

  // ---------------------------------------------------------------------
  // Number of occupied slots

  function CountLive(a: Arena): (n: nat)
    ensures n <= |a|
  {
    if a == [] then 0 else CountLive(a[..|a| - 1]) + (if a[|a| - 1].Some? then 1 else 0)
  }

  function Nones(n: nat): (s: Arena)
    ensures |s| == n && forall j :: 0 <= j < n ==> s[j].None?
  {
    if n == 0 then [] else Nones(n - 1) + [None]
  }

  /** Storing v into slot j changes the count by the change in occupancy of j. */
  lemma {:induction false} CountUpdate(a: Arena, j: nat, v: Option<Tile>)
    requires j < |a|
    ensures CountLive(a[j := v]) ==
      CountLive(a) - (if a[j].Some? then 1 else 0) + (if v.Some? then 1 else 0)
  {
    var b := a[j := v];
    if j == |a| - 1 {
      assert b[..|b| - 1] == a[..|a| - 1];
    } else {
      assert b[..|b| - 1] == a[..|a| - 1][j := v];
      CountUpdate(a[..|a| - 1], j, v);
    }
  }

  /** The count depends only on which slots are occupied. */
  lemma {:induction false} CountSameLive(a: Arena, b: Arena)
    requires |b| == |a| && forall x :: 0 <= x < |a| ==> (b[x].Some? <==> a[x].Some?)
    ensures CountLive(b) == CountLive(a)
  {
    if a != [] {
      CountSameLive(a[..|a| - 1], b[..|b| - 1]);
    }
  }

  /** Appending empty slots does not change the count. */
  lemma {:induction false} CountAppendNones(a: Arena, n: nat)
    ensures CountLive(a + Nones(n)) == CountLive(a)
  {
    if n > 0 {
      assert a + Nones(n) == (a + Nones(n - 1)) + [None];
      var b := a + Nones(n);
      assert b != [] && b[|b| - 1].None?;
      assert b[..|b| - 1] == a + Nones(n - 1);
      CountAppendNones(a, n - 1);
    } else {
      assert a + Nones(n) == a;
    }
  }

  /** A table whose every slot is occupied counts all its slots. */
  lemma {:induction false} CountFull(a: Arena)
    requires forall j :: 0 <= j < |a| ==> a[j].Some?
    ensures CountLive(a) == |a|
  {
    if a != [] {
      CountFull(a[..|a| - 1]);
    }
  }

  // ---------------------------------------------------------------------
  // Shape of the trees

  lemma BranchInBelow(a: Arena, sub: Subtiles, h: nat, k: nat)
    requires h > 0 && k < 4
    ensures Branch(a, sub[k], h - 1) <= Below(a, sub, h)
  {
    BranchInBranches(a, sub, h - 1, k, 4);
  }

  lemma {:induction false} BranchInBranches(a: Arena, sub: Subtiles, h: nat, k: nat, n: nat)
    requires k < n <= 4
    ensures Branch(a, sub[k], h) <= Branches(a, sub, h, n)
  {
    if k < n - 1 {
      BranchInBranches(a, sub, h, k, n - 1);
    }
  }

  /** Every slot below some links lies in the subtree of one of them. */
  lemma {:induction false} InBranches(a: Arena, sub: Subtiles, h: nat, n: nat, x: nat) returns (k: nat)
    requires n <= 4 && x in Branches(a, sub, h, n)
    ensures k < n && sub[k].Some? && x in Tree(a, sub[k].value, h)
  {
    if x in Branch(a, sub[n - 1], h) {
      k := n - 1;
    } else {
      k := InBranches(a, sub, h, n - 1, x);
    }
  }

  /** A sound node's children are different slots. */
  lemma ChildrenDistinct(a: Arena, sub: Subtiles, h: nat, k: nat, k': nat)
    requires TileSound(a, sub, h) && k < 4 && k' < 4 && k != k'
    requires sub[k].Some? && sub[k'].Some?
    ensures sub[k].value != sub[k'].value
  {
    if k < k' {
      assert sub[k].value in Tree(a, sub[k].value, h - 1);
      assert sub[k'].value in Tree(a, sub[k'].value, h - 1);
    } else {
      assert sub[k].value in Tree(a, sub[k].value, h - 1);
      assert sub[k'].value in Tree(a, sub[k'].value, h - 1);
    }
  }

  /** The subtree of child k shares no slot with those of the children before it. */
  lemma {:induction false} BranchDisjoint(a: Arena, sub: Subtiles, h: nat, k: nat, n: nat)
    requires TileSound(a, sub, h) && h > 0 && n <= k < 4
    ensures Branch(a, sub[k], h - 1) !! Branches(a, sub, h - 1, n)
  {
    if n > 0 {
      BranchDisjoint(a, sub, h, k, n - 1);
    }
  }

  /** Every slot of a sound subtree is occupied by its own node. */
  lemma {:induction false} TreeLive(a: Arena, j: nat, h: nat, x: nat)
    requires NodeSound(a, j, h) && x in Tree(a, j, h)
    ensures Live(a, x)
    decreases h, 1
  {
    if x != j {
      BelowLive(a, a[j].value.subtile, h, x);
    }
  }

  lemma {:induction false} BelowLive(a: Arena, sub: Subtiles, h: nat, x: nat)
    requires TileSound(a, sub, h) && x in Below(a, sub, h)
    ensures Live(a, x)
    decreases h, 0
  {
    var k := InBranches(a, sub, h - 1, 4, x);
    TreeLive(a, sub[k].value, h - 1, x);
  }

  /** A sound subtree is unaffected by changes outside its slots that keep its links. */
  lemma {:induction false} NodeFrame(a: Arena, b: Arena, j: nat, h: nat)
    requires NodeSound(a, j, h)
    requires forall x :: x in Tree(a, j, h) ==> SameShape(a, b, x)
    ensures NodeSound(b, j, h) && Tree(b, j, h) == Tree(a, j, h)
    decreases h, 1
  {
    assert j in Tree(a, j, h);
    assert SameShape(a, b, j);
    var sub := a[j].value.subtile;
    forall x | x in Below(a, sub, h) ensures SameShape(a, b, x) {
      assert x in Tree(a, j, h);
    }
    TileFrame(a, b, sub, h);
  }

  lemma {:induction false} TileFrame(a: Arena, b: Arena, sub: Subtiles, h: nat)
    requires TileSound(a, sub, h)
    requires forall x :: x in Below(a, sub, h) ==> SameShape(a, b, x)
    ensures TileSound(b, sub, h) && Below(b, sub, h) == Below(a, sub, h)
    decreases h, 0
  {
    if h > 0 {
      forall k | 0 <= k < 4 && sub[k].Some?
        ensures NodeSound(b, sub[k].value, h - 1) && Tree(b, sub[k].value, h - 1) == Tree(a, sub[k].value, h - 1)
      {
        BranchInBelow(a, sub, h, k);
        NodeFrame(a, b, sub[k].value, h - 1);
      }
      BranchesFrame(a, b, sub, h, 4);
    }
  }

  lemma {:induction false} BranchesFrame(a: Arena, b: Arena, sub: Subtiles, h: nat, n: nat)
    requires h > 0 && n <= 4
    requires forall k :: 0 <= k < 4 && sub[k].Some? ==> Tree(b, sub[k].value, h - 1) == Tree(a, sub[k].value, h - 1)
    ensures Branches(b, sub, h - 1, n) == Branches(a, sub, h - 1, n)
  {
    if n > 0 {
      BranchesFrame(a, b, sub, h, n - 1);
    }
  }

  /** A tile without children is sound at every height. */
  lemma LeafSound(a: Arena, sub: Subtiles, h: nat)
    requires forall k :: 0 <= k < 4 ==> sub[k].None?
    ensures TileSound(a, sub, h) && Below(a, sub, h) == {}
  {
    if h > 0 {
      assert Branches(a, sub, h - 1, 1) == {};
      assert Branches(a, sub, h - 1, 2) == {};
      assert Branches(a, sub, h - 1, 3) == {};
    }
  }

  /**
   * Replacing child link k of a sound tile: the new child (if any) is sound
   * and its subtree uses only slots of the old child's subtree or slots that
   * were empty; the other children's subtrees keep their shape. The tile is
   * then still sound, and everything below it was below it before or empty.
   */
  lemma StepChild(a: Arena, b: Arena, sub: Subtiles, sub': Subtiles, k: nat, h: nat)
    requires TileSound(a, sub, h) && k < 4 && h > 0
    requires forall i :: 0 <= i < 4 && i != k ==> sub'[i] == sub[i]
    requires sub'[k].Some? ==> NodeSound(b, sub'[k].value, h - 1)
    requires sub'[k].Some? ==> forall x :: x in Tree(b, sub'[k].value, h - 1) ==>
               x in Branch(a, sub[k], h - 1) || !Live(a, x)
    requires forall i, x :: 0 <= i < 4 && i != k && sub[i].Some? && x in Tree(a, sub[i].value, h - 1) ==>
               SameShape(a, b, x)
    ensures TileSound(b, sub', h)
    ensures forall x :: x in Below(b, sub', h) ==> x in Below(a, sub, h) || !Live(a, x)
  {
    forall i | 0 <= i < 4 && i != k && sub[i].Some?
      ensures NodeSound(b, sub[i].value, h - 1) && Tree(b, sub[i].value, h - 1) == Tree(a, sub[i].value, h - 1)
    {
      NodeFrame(a, b, sub[i].value, h - 1);
    }
    forall i, i' | 0 <= i < i' < 4 && sub'[i].Some? && sub'[i'].Some?
      ensures Tree(b, sub'[i].value, h - 1) !! Tree(b, sub'[i'].value, h - 1)
    {
      if i == k || i' == k {
        var other := if i == k then i' else i;
        var c, hc := sub[other].value, h - 1;
        forall x | x in Tree(b, c, hc)
          ensures x !in Tree(b, sub'[k].value, hc)
        {
          TreeLive(a, c, hc, x);
          if sub[k].Some? {
            if k < other {
              assert x !in Tree(a, sub[k].value, hc);
            } else {
              assert x !in Tree(a, sub[k].value, hc);
            }
          }
        }
      }
    }
    assert TileSound(b, sub', h);
    forall x | x in Below(b, sub', h) ensures x in Below(a, sub, h) || !Live(a, x) {
      var i := InBranches(b, sub', h - 1, 4, x);
      BranchInBelow(a, sub, h, i);
    }
  }

  /** Writing a node into its own slot, where it is not below itself, makes the slot sound. */
  lemma WriteNode(a: Arena, s: nat, t: Tile, h: nat)
    requires s < |a| && t.ofs == s
    requires TileSound(a, t.subtile, h) && s !in Below(a, t.subtile, h)
    ensures NodeSound(a[s := Some(t)], s, h)
    ensures Below(a[s := Some(t)], t.subtile, h) == Below(a, t.subtile, h)
    ensures Tree(a[s := Some(t)], s, h) == {s} + Below(a, t.subtile, h)
  {
    var b := a[s := Some(t)];
    forall x | x in Below(a, t.subtile, h) ensures SameShape(a, b, x) {
      BelowLive(a, t.subtile, h, x);
    }
    TileFrame(a, b, t.subtile, h);
  }

  // ---------------------------------------------------------------------
  // Eviction

  /** The child links with every link into F cleared. */
  function PruneLinks(sub: Subtiles, F: set<nat>): Subtiles
  {
    seq(4, k requires 0 <= k < 4 => if sub[k].Some? && sub[k].value in F then None else sub[k])
  }

  function Pruned(t: Tile, F: set<nat>): Tile
  {
    t.(subtile := PruneLinks(t.subtile, F))
  }

  /**
   * The table after the nodes in F are freed from among the slots D: freed
   * slots are empty, the other nodes of D have lost their links to freed
   * nodes, and every slot outside D is as before.
   */
  ghost function PruneIn(a: Arena, F: set<nat>, D: set<nat>): (b: Arena)
    ensures |b| == |a|
  {
    seq(|a|, x requires 0 <= x < |a| =>
      if x in F then None else if x in D && a[x].Some? then Some(Pruned(a[x].value, F)) else a[x])
  }

  /**
   * F may be freed from arena a: every node in F is live, holds no surface
   * texture, and has all its children in F.
   */
  ghost predicate Evictable(a: Arena, F: set<nat>)
  {
    forall x :: x in F ==>
      (x < |a| && a[x].Some? && a[x].value.tex.Null? &&
       forall k :: 0 <= k < 4 && a[x].value.subtile[k].Some? ==> a[x].value.subtile[k].value in F)
  }

  /** Evictability depends only on the slots of the freed nodes. */
  lemma EvictableTransfer(a: Arena, b: Arena, f: set<nat>, T: set<nat>)
    requires Evictable(b, f) && f <= T
    requires forall x :: x in T ==> x < |a| && x < |b| && b[x] == a[x]
    ensures Evictable(a, f)
  {
  }

  lemma EvictableUnion(a: Arena, F: set<nat>, G: set<nat>)
    requires Evictable(a, F) && Evictable(a, G)
    ensures Evictable(a, F + G)
  {
  }

  /** Every child of a node in D is in D. */
  ghost predicate Closed(a: Arena, D: set<nat>)
  {
    forall x, k :: x in D && 0 <= k < 4 && x < |a| && a[x].Some? && a[x].value.subtile[k].Some? ==>
      a[x].value.subtile[k].value in D
  }

  /** Every node of the subtree of j holds a null surface texture. */
  ghost predicate NullTree(a: Arena, j: nat, h: nat)
    decreases h
  {
    j < |a| && a[j].Some? && a[j].value.tex.Null? &&
    forall k :: 0 <= k < 4 && a[j].value.subtile[k].Some? ==> h > 0 && NullTree(a, a[j].value.subtile[k].value, h - 1)
  }

  /**
   * The nodes the source's bottom-up eviction frees in the subtree of j:
   * j itself exactly when its whole subtree holds no surface texture, and
   * below it, the same rule applied to each child in turn.
   */
  ghost function Evicted(a: Arena, j: nat, h: nat): set<nat>
    decreases h, 1
  {
    (if NullTree(a, j, h) then {j} else {}) +
    (if j < |a| && a[j].Some? then EvictedBelow(a, a[j].value.subtile, h) else {})
  }

  /** The nodes freed below the child links `sub`. */
  ghost function EvictedBelow(a: Arena, sub: Subtiles, h: nat): set<nat>
    decreases h, 0
  {
    if h == 0 then {} else EvictedBranches(a, sub, h - 1, 4)
  }

  /** The nodes freed in the subtrees of the first n child links. */
  ghost function EvictedBranches(a: Arena, sub: Subtiles, h: nat, n: nat): set<nat>
    requires n <= 4
    decreases h, 2, n
  {
    if n == 0 then {}
    else EvictedBranches(a, sub, h, n - 1) + (if sub[n - 1].Some? then Evicted(a, sub[n - 1].value, h) else {})
  }

  /**
   * A texture-free leaf under two textured nodes is freed although neither
   * node above it is: the root in slot 0 holds a surface texture, its child
   * in slot 1 too, and the grandchild in slot 2 none.
   */
  lemma EvictedDeepLeaf()
    ensures var a := [Some(Tile(Handle(1), Null, 0, [Some(1), None, None, None], 0)),
                      Some(Tile(Handle(2), Null, 0, [Some(2), None, None, None], 1)),
                      Some(Tile(Null, Null, 0, NoSubtiles, 2))];
      Evicted(a, 0, 2) == {2}
  {
    var a := [Some(Tile(Handle(1), Null, 0, [Some(1), None, None, None], 0)),
              Some(Tile(Handle(2), Null, 0, [Some(2), None, None, None], 1)),
              Some(Tile(Null, Null, 0, NoSubtiles, 2))];
    assert NullTree(a, 2, 0) && !NullTree(a, 1, 1) && !NullTree(a, 0, 2);
    assert Evicted(a, 2, 0) == {2};
    assert EvictedBelow(a, a[1].value.subtile, 1) == {2};
    assert Evicted(a, 1, 1) == {2};
  }

  lemma PruneLinksSame(sub: Subtiles, F: set<nat>, G: set<nat>)
    requires forall k :: 0 <= k < 4 && sub[k].Some? ==> (sub[k].value in F <==> sub[k].value in G)
    ensures PruneLinks(sub, F) == PruneLinks(sub, G)
  {
  }

  lemma PruneNothing(a: Arena, D: set<nat>)
    ensures PruneIn(a, {}, D) == a
  {
    forall x | 0 <= x < |a| ensures PruneIn(a, {}, D)[x] == a[x] {
      if a[x].Some? {
        assert PruneLinks(a[x].value.subtile, {}) == a[x].value.subtile;
      }
    }
  }

  /** Slots outside D and F are left alone. */
  lemma PruneOutside(a: Arena, F: set<nat>, D: set<nat>)
    ensures forall x :: 0 <= x < |a| && x !in D && x !in F ==> PruneIn(a, F, D)[x] == a[x]
  {
  }

  /** Subtrees are closed under taking children. */
  lemma {:induction false} TreeClosed(a: Arena, j: nat, h: nat)
    requires NodeSound(a, j, h)
    ensures Closed(a, Tree(a, j, h))
    decreases h, 1
  {
    var sub := a[j].value.subtile;
    BelowClosed(a, sub, h);
    forall k | 0 <= k < 4 && sub[k].Some? ensures sub[k].value in Tree(a, j, h) {
      BranchInBelow(a, sub, h, k);
    }
  }

  lemma {:induction false} BelowClosed(a: Arena, sub: Subtiles, h: nat)
    requires TileSound(a, sub, h)
    ensures Closed(a, Below(a, sub, h))
    decreases h, 0
  {
    if h > 0 {
      forall k | 0 <= k < 4 && sub[k].Some? ensures Closed(a, Tree(a, sub[k].value, h - 1)) {
        TreeClosed(a, sub[k].value, h - 1);
      }
      BranchesClosed(a, sub, h, 4);
    }
  }

  lemma {:induction false} BranchesClosed(a: Arena, sub: Subtiles, h: nat, n: nat)
    requires h > 0 && n <= 4
    requires forall k :: 0 <= k < 4 && sub[k].Some? ==> Closed(a, Tree(a, sub[k].value, h - 1))
    ensures Closed(a, Branches(a, sub, h - 1, n))
  {
    if n > 0 {
      BranchesClosed(a, sub, h, n - 1);
    }
  }

  /**
   * Freeing f from among T after F was freed from among D, for disjoint
   * closed D and T, is freeing F + f from among D + T.
   */
  lemma PruneCompose(a: Arena, F: set<nat>, D: set<nat>, f: set<nat>, T: set<nat>)
    requires F <= D && f <= T && T !! D && Closed(a, D) && Closed(a, T)
    requires forall x :: x in T ==> x < |a| && a[x].Some?
    ensures PruneIn(PruneIn(a, F, D), f, T) == PruneIn(a, F + f, D + T)
  {
    var b := PruneIn(a, F, D);
    forall x | 0 <= x < |a| ensures PruneIn(b, f, T)[x] == PruneIn(a, F + f, D + T)[x] {
      if x in T && x !in f {
        PruneLinksSame(a[x].value.subtile, f, F + f);
      } else if x in D && x !in F && a[x].Some? {
        PruneLinksSame(a[x].value.subtile, F, F + f);
      }
    }
  }

  /** Whether a subtree holds only null textures depends only on its own slots. */
  lemma {:induction false} NullFrame(a: Arena, b: Arena, j: nat, h: nat)
    requires NodeSound(a, j, h)
    requires forall x :: x in Tree(a, j, h) ==> x < |a| && x < |b| && b[x] == a[x]
    ensures NullTree(b, j, h) == NullTree(a, j, h)
    decreases h
  {
    assert j in Tree(a, j, h);
    var sub := a[j].value.subtile;
    forall k | 0 <= k < 4 && sub[k].Some?
      ensures NullTree(b, sub[k].value, h - 1) == NullTree(a, sub[k].value, h - 1)
    {
      BranchInBelow(a, sub, h, k);
      NullFrame(a, b, sub[k].value, h - 1);
    }
  }

  /** What eviction frees in a subtree depends only on the subtree's own slots. */
  lemma {:induction false} EvictedFrame(a: Arena, b: Arena, j: nat, h: nat)
    requires NodeSound(a, j, h)
    requires forall x :: x in Tree(a, j, h) ==> x < |a| && x < |b| && b[x] == a[x]
    ensures Evicted(b, j, h) == Evicted(a, j, h)
    decreases h
  {
    assert j in Tree(a, j, h);
    NullFrame(a, b, j, h);
    var sub := a[j].value.subtile;
    if h > 0 {
      forall k | 0 <= k < 4 && sub[k].Some?
        ensures Evicted(b, sub[k].value, h - 1) == Evicted(a, sub[k].value, h - 1)
      {
        BranchInBelow(a, sub, h, k);
        EvictedFrame(a, b, sub[k].value, h - 1);
      }
      EvictedBranchesSame(a, b, sub, h - 1, 4);
    }
  }

  lemma {:induction false} EvictedBranchesSame(a: Arena, b: Arena, sub: Subtiles, h: nat, n: nat)
    requires n <= 4
    requires forall k :: 0 <= k < 4 && sub[k].Some? ==> Evicted(b, sub[k].value, h) == Evicted(a, sub[k].value, h)
    ensures EvictedBranches(b, sub, h, n) == EvictedBranches(a, sub, h, n)
  {
    if n > 0 {
      EvictedBranchesSame(a, b, sub, h, n - 1);
    }
  }

  /** Pruning a sound tile whose remaining children only shrank keeps it sound. */
  lemma PrunedSound(a: Arena, b: Arena, sub: Subtiles, F: set<nat>, h: nat)
    requires TileSound(a, sub, h)
    requires forall k :: 0 <= k < 4 && sub[k].Some? && sub[k].value !in F ==>
      h > 0 && NodeSound(b, sub[k].value, h - 1) && Tree(b, sub[k].value, h - 1) <= Tree(a, sub[k].value, h - 1)
    ensures TileSound(b, PruneLinks(sub, F), h)
    ensures Below(b, PruneLinks(sub, F), h) <= Below(a, sub, h)
  {
    var sub' := PruneLinks(sub, F);
    forall x | x in Below(b, sub', h) ensures x in Below(a, sub, h) {
      var k := InBranches(b, sub', h - 1, 4, x);
      BranchInBelow(a, sub, h, k);
    }
  }

  /**
   * While the children before i are being freed, the subtree of child i is
   * untouched.
   */
  lemma ChildUntouched(a: Arena, b: Arena, sub: Subtiles, h: nat, i: nat)
    requires TileSound(a, sub, h) && h > 0 && i < 4 && sub[i].Some?
    requires |b| == |a| && forall x :: 0 <= x < |a| && x !in Branches(a, sub, h - 1, i) ==> b[x] == a[x]
    ensures forall x :: x in Tree(a, sub[i].value, h - 1) ==> x < |a| && x < |b| && b[x] == a[x]
    ensures NodeSound(b, sub[i].value, h - 1) && Tree(b, sub[i].value, h - 1) == Tree(a, sub[i].value, h - 1)
    ensures NullTree(b, sub[i].value, h - 1) == NullTree(a, sub[i].value, h - 1)
  {
    var c := sub[i].value;
    var D := Branches(a, sub, h - 1, i);
    BranchDisjoint(a, sub, h, i, i);
    assert Branch(a, sub[i], h - 1) == Tree(a, c, h - 1);
    forall x | x in Tree(a, c, h - 1) ensures x < |a| && x < |b| && b[x] == a[x] && SameShape(a, b, x) {
      TreeLive(a, c, h - 1, x);
    }
    NodeFrame(a, b, c, h - 1);
    NullFrame(a, b, c, h - 1);
  }

  /**
   * Freeing f inside the subtree of child i, after F was freed inside the
   * children before i, is freeing F + f inside the children up to i.
   */
  lemma ChildFreed(a: Arena, b: Arena, b': Arena, sub: Subtiles, h: nat, i: nat, F: set<nat>, f: set<nat>)
    requires TileSound(a, sub, h) && h > 0 && i < 4 && sub[i].Some?
    requires F <= Branches(a, sub, h - 1, i) && Evictable(a, F)
    requires b == PruneIn(a, F, Branches(a, sub, h - 1, i))
    requires f <= Tree(b, sub[i].value, h - 1) && Evictable(b, f)
    requires b' == PruneIn(b, f, Tree(b, sub[i].value, h - 1))
    ensures F !! f && Evictable(a, F + f) && F + f <= Branches(a, sub, h - 1, i + 1)
    ensures sub[i].value !in F
    ensures b' == PruneIn(a, F + f, Branches(a, sub, h - 1, i + 1))
    ensures forall k :: 0 <= k < 4 && k != i && sub[k].Some? ==> sub[k].value !in f
  {
    var c := sub[i].value;
    PruneOutside(a, F, Branches(a, sub, h - 1, i));
    ChildUntouched(a, b, sub, h, i);
    TileParts(a, sub, h, i);
    var D := Branches(a, sub, h - 1, i);
    var T := Tree(a, c, h - 1);
    assert Tree(b, c, h - 1) == T;
    assert Branches(a, sub, h - 1, i + 1) == D + T;
    assert f <= T;
    assert Closed(a, D) && Closed(a, T);
    TreeAllLive(a, c, h - 1);
    PruneCompose(a, F, D, f, T);
    EvictableTransfer(a, b, f, T);
    EvictableUnion(a, F, f);
  }

  /**
   * The pieces of a sound tile around child i: the subtrees before i and
   * the subtree of i are closed and disjoint, the latter is live, and no
   * other child lies in it.
   */
  lemma TileParts(a: Arena, sub: Subtiles, h: nat, i: nat)
    requires TileSound(a, sub, h) && h > 0 && i < 4 && sub[i].Some?
    ensures Closed(a, Branches(a, sub, h - 1, i)) && Closed(a, Tree(a, sub[i].value, h - 1))
    ensures Tree(a, sub[i].value, h - 1) !! Branches(a, sub, h - 1, i)
    ensures forall x :: x in Tree(a, sub[i].value, h - 1) ==> x < |a| && a[x].Some?
    ensures forall k :: 0 <= k < 4 && k != i && sub[k].Some? ==> sub[k].value !in Tree(a, sub[i].value, h - 1)
  {
    BranchDisjoint(a, sub, h, i, i);
    forall k | 0 <= k < 4 && sub[k].Some? ensures Closed(a, Tree(a, sub[k].value, h - 1)) {
      TreeClosed(a, sub[k].value, h - 1);
    }
    BranchesClosed(a, sub, h, i);
    TreeAllLive(a, sub[i].value, h - 1);
    forall k | 0 <= k < 4 && k != i && sub[k].Some? ensures sub[k].value !in Tree(a, sub[i].value, h - 1) {
      ChildrenDistinct(a, sub, h, i, k);
      assert sub[k].value in Tree(a, sub[k].value, h - 1);
    }
  }

  lemma TreeAllLive(a: Arena, j: nat, h: nat)
    requires NodeSound(a, j, h)
    ensures forall x :: x in Tree(a, j, h) ==> x < |a| && a[x].Some?
  {
    forall x | x in Tree(a, j, h) ensures x < |a| && a[x].Some? {
      TreeLive(a, j, h, x);
    }
  }



  /**
   * A sound subtree whose surviving nodes lost only their links into F is
   * still sound, and has only shrunk.
   */
  lemma {:induction false} PruneNodeSound(a: Arena, b: Arena, F: set<nat>, j: nat, h: nat)
    requires NodeSound(a, j, h) && j !in F
    requires forall x :: x in Tree(a, j, h) && x !in F ==> x < |a| && x < |b| && a[x].Some? && b[x] == Some(Pruned(a[x].value, F))
    ensures NodeSound(b, j, h) && Tree(b, j, h) <= Tree(a, j, h)
    decreases h, 1
  {
    assert j in Tree(a, j, h);
    var sub := a[j].value.subtile;
    assert b[j].value.subtile == PruneLinks(sub, F);
    PruneTileSound(a, b, F, sub, h);
  }

  lemma {:induction false} PruneTileSound(a: Arena, b: Arena, F: set<nat>, sub: Subtiles, h: nat)
    requires TileSound(a, sub, h)
    requires forall x :: x in Below(a, sub, h) && x !in F ==> x < |a| && x < |b| && a[x].Some? && b[x] == Some(Pruned(a[x].value, F))
    ensures TileSound(b, PruneLinks(sub, F), h) && Below(b, PruneLinks(sub, F), h) <= Below(a, sub, h)
    decreases h, 0
  {
    forall k | 0 <= k < 4 && sub[k].Some? && sub[k].value !in F
      ensures NodeSound(b, sub[k].value, h - 1) && Tree(b, sub[k].value, h - 1) <= Tree(a, sub[k].value, h - 1)
    {
      BranchInBelow(a, sub, h, k);
      PruneNodeSound(a, b, F, sub[k].value, h - 1);
    }
    PrunedSound(a, b, sub, F, h);
  }

  /** Clearing link i when its child was freed tracks pruning by the grown set. */
  lemma PruneLinksStep(sub: Subtiles, F: set<nat>, f: set<nat>, i: nat, d: bool)
    requires i < 4 && sub[i].Some? && sub[i].value !in F && (d <==> sub[i].value in f)
    requires forall k :: 0 <= k < 4 && k != i && sub[k].Some? ==> sub[k].value !in f
    ensures (if d then PruneLinks(sub, F)[i := None] else PruneLinks(sub, F)) == PruneLinks(sub, F + f)
  {
  }

  /** No link is left exactly when every child is in F. */
  lemma AllPruned(sub: Subtiles, F: set<nat>)
    ensures (forall k :: 0 <= k < 4 ==> PruneLinks(sub, F)[k].None?) <==>
            (forall k :: 0 <= k < 4 && sub[k].Some? ==> sub[k].value in F)
  {
    forall k | 0 <= k < 4
      ensures PruneLinks(sub, F)[k] == if sub[k].Some? && sub[k].value in F then None else sub[k]
    {
    }
  }

  /**
   * Writing the pruned node back into its slot after its children's
   * subtrees were pruned prunes its whole subtree, which stays sound.
   */
  lemma KeepNode(a: Arena, b: Arena, s: nat, h: nat, f: set<nat>, sub': Subtiles)
    requires NodeSound(a, s, h)
    requires f <= Below(a, a[s].value.subtile, h)
    requires b == PruneIn(a, f, Below(a, a[s].value.subtile, h))
    requires sub' == PruneLinks(a[s].value.subtile, f)
    requires TileSound(b, sub', h) && Below(b, sub', h) <= Below(a, a[s].value.subtile, h)
    ensures b[s := Some(Pruned(a[s].value, f))] == PruneIn(a, f, Tree(a, s, h))
    ensures NodeSound(b[s := Some(Pruned(a[s].value, f))], s, h)
    ensures Tree(b[s := Some(Pruned(a[s].value, f))], s, h) <= Tree(a, s, h)
  {
    var B := Below(a, a[s].value.subtile, h);
    assert Tree(a, s, h) == {s} + B;
    var b' := b[s := Some(Pruned(a[s].value, f))];
    forall x | 0 <= x < |a| ensures b'[x] == PruneIn(a, f, Tree(a, s, h))[x] {
    }
    WriteNode(b, s, Pruned(a[s].value, f), h);
  }

  /** Freeing the node itself on top of its pruned subtree. */
  lemma DropNode(a: Arena, s: nat, h: nat, f: set<nat>)
    requires NodeSound(a, s, h) && f <= Below(a, a[s].value.subtile, h) && Evictable(a, f)
    requires a[s].value.tex.Null?
    requires forall k :: 0 <= k < 4 && a[s].value.subtile[k].Some? ==> a[s].value.subtile[k].value in f
    ensures PruneIn(a, f, Tree(a, s, h))[s := None] == PruneIn(a, f + {s}, Tree(a, s, h))
    ensures Evictable(a, f + {s}) && f + {s} <= Tree(a, s, h) && s !in f
  {
    var B := Below(a, a[s].value.subtile, h);
    assert Tree(a, s, h) == {s} + B;
    BelowClosed(a, a[s].value.subtile, h);
    forall x | 0 <= x < |a| ensures PruneIn(a, f, Tree(a, s, h))[s := None][x] == PruneIn(a, f + {s}, Tree(a, s, h))[x] {
      if x != s && x in B && x !in f {
        BelowLive(a, a[s].value.subtile, h, x);
        PruneLinksSame(a[x].value.subtile, f, f + {s});
      }
    }
  }

  /**
   * The last step of freeing the subtree of s: once the children's subtrees
   * are pruned, s gets its pruned links back, and is itself freed exactly
   * when it holds no surface texture and no child is left.
   */
  lemma EvictNode(a: Arena, b: Arena, s: nat, h: nat, f: set<nat>, sub': Subtiles, del: bool)
    requires NodeSound(a, s, h)
    requires f <= Below(a, a[s].value.subtile, h) && Evictable(a, f)
    requires b == PruneIn(a, f, Below(a, a[s].value.subtile, h))
    requires sub' == PruneLinks(a[s].value.subtile, f)
    requires forall k :: 0 <= k < 4 && a[s].value.subtile[k].Some? ==>
      (a[s].value.subtile[k].value in f <==> h > 0 && NullTree(a, a[s].value.subtile[k].value, h - 1))
    requires TileSound(b, sub', h) && Below(b, sub', h) <= Below(a, a[s].value.subtile, h)
    requires del == (a[s].value.tex.Null? && forall k :: 0 <= k < 4 ==> sub'[k].None?)
    ensures var b1 := b[s := Some(a[s].value.(subtile := sub'))];
      var c := if del then b1[s := None] else b1;
      var F := if del then f + {s} else f;
      c == PruneIn(a, F, Tree(a, s, h)) && F <= Tree(a, s, h) && Evictable(a, F) &&
      (del <==> s in F) && (del <==> NullTree(a, s, h)) && |F| == |f| + (if del then 1 else 0) &&
      (!del ==> NodeSound(c, s, h) && Tree(c, s, h) <= Tree(a, s, h))
  {
    var sub := a[s].value.subtile;
    KeepNode(a, b, s, h, f, sub');
    AllPruned(sub, f);
    assert s !in f by {
      assert s !in Below(a, sub, h);
    }
    if del {
      DropNode(a, s, h, f);
    }
  }

  // ---------------------------------------------------------------------
  // The loop of DeleteSubTiles: after the first i child links

  /**
   * The children before i have been processed: the table is a pruned by
   * the nodes freed so far, the links to the freed children are cleared,
   * a child was freed exactly when its subtree had no surface texture, and
   * n counts the freed nodes.
   */
  ghost predicate SubtilesDone(a: Arena, sub: Subtiles, h: nat, i: nat, b: Arena, sub': Subtiles, n: nat, F: set<nat>)
    requires i <= 4
  {
    var hc := if h > 0 then h - 1 else 0;
    TileSound(a, sub, h) && (h == 0 ==> F == {}) &&
    F <= Branches(a, sub, hc, i) && Evictable(a, F) &&
    b == PruneIn(a, F, Branches(a, sub, hc, i)) && sub' == PruneLinks(sub, F) &&
    (forall k :: 0 <= k < i && sub[k].Some? ==> (sub[k].value in F <==> h > 0 && NullTree(a, sub[k].value, h - 1))) &&
    n == |F| && CountLive(b) == CountLive(a) - n
  }

  lemma SubtilesStart(a: Arena, sub: Subtiles, h: nat)
    requires TileSound(a, sub, h)
    ensures SubtilesDone(a, sub, h, 0, a, sub, 0, {})
  {
    PruneNothing(a, {});
    assert PruneLinks(sub, {}) == sub;
  }

  lemma SubtilesSkip(a: Arena, sub: Subtiles, h: nat, i: nat, b: Arena, sub': Subtiles, n: nat, F: set<nat>)
    requires i < 4 && sub[i].None? && SubtilesDone(a, sub, h, i, b, sub', n, F)
    ensures SubtilesDone(a, sub, h, i + 1, b, sub', n, F)
  {
    var hc := if h > 0 then h - 1 else 0;
    assert Branches(a, sub, hc, i + 1) == Branches(a, sub, hc, i);
  }

  /** Child i can be processed: its subtree is still intact. */
  lemma SubtilesChildIntact(a: Arena, sub: Subtiles, h: nat, i: nat, b: Arena, sub': Subtiles, n: nat, F: set<nat>)
    requires i < 4 && sub[i].Some? && SubtilesDone(a, sub, h, i, b, sub', n, F)
    ensures h > 0 && NodeSound(b, sub[i].value, h - 1)
    ensures NullTree(b, sub[i].value, h - 1) == NullTree(a, sub[i].value, h - 1)
  {
    PruneOutside(a, F, Branches(a, sub, h - 1, i));
    ChildUntouched(a, b, sub, h, i);
  }

  /** Processing child i, given what freeing its subtree did. */
  lemma SubtilesChild(a: Arena, sub: Subtiles, h: nat, i: nat, b: Arena, sub': Subtiles, n: nat, F: set<nat>,
                      b': Arena, d: bool, m: nat, f: set<nat>)
    requires i < 4 && sub[i].Some? && SubtilesDone(a, sub, h, i, b, sub', n, F) && h > 0
    requires f <= Tree(b, sub[i].value, h - 1) && Evictable(b, f)
    requires b' == PruneIn(b, f, Tree(b, sub[i].value, h - 1))
    requires (d <==> sub[i].value in f) && (d <==> NullTree(b, sub[i].value, h - 1))
    requires m == |f| && CountLive(b') == CountLive(b) - m
    ensures SubtilesDone(a, sub, h, i + 1, b', if d then sub'[i := None] else sub', n + m, F + f)
  {
    PruneOutside(a, F, Branches(a, sub, h - 1, i));
    ChildUntouched(a, b, sub, h, i);
    ChildFreed(a, b, b', sub, h, i, F, f);
    PruneLinksStep(sub, F, f, i, d);
  }

  /** Child i's subtree is still intact, so eviction would free the same nodes in it. */
  lemma SubtilesChildEvicted(a: Arena, sub: Subtiles, h: nat, i: nat, b: Arena, sub': Subtiles, n: nat, F: set<nat>)
    requires i < 4 && sub[i].Some? && SubtilesDone(a, sub, h, i, b, sub', n, F) && h > 0
    ensures Evicted(b, sub[i].value, h - 1) == Evicted(a, sub[i].value, h - 1)
  {
    PruneOutside(a, F, Branches(a, sub, h - 1, i));
    EvictedUntouched(a, b, sub, h, i);
  }

  /** While the children before i are being freed, eviction in child i's subtree is unaffected. */
  lemma EvictedUntouched(a: Arena, b: Arena, sub: Subtiles, h: nat, i: nat)
    requires TileSound(a, sub, h) && h > 0 && i < 4 && sub[i].Some?
    requires |b| == |a| && forall x :: 0 <= x < |a| && x !in Branches(a, sub, h - 1, i) ==> b[x] == a[x]
    ensures Evicted(b, sub[i].value, h - 1) == Evicted(a, sub[i].value, h - 1)
  {
    var c := sub[i].value;
    var hc: nat := h - 1;
    BranchDisjoint(a, sub, h, i, i);
    assert Branch(a, sub[i], hc) == Tree(a, c, hc);
    forall x | x in Tree(a, c, hc) ensures x < |a| && x < |b| && b[x] == a[x] {
      TreeLive(a, c, hc, x);
    }
    EvictedFrame(a, b, c, hc);
  }

  /**
   * What the loop has freed after child i is what eviction frees in the
   * subtrees of the children up to i.
   */
  lemma EvictedNext(a: Arena, sub: Subtiles, h: nat, i: nat, F: set<nat>, f: set<nat>)
    requires i < 4 && sub[i].Some?
    requires F == EvictedBranches(a, sub, h, i) && f == Evicted(a, sub[i].value, h)
    ensures F + f == EvictedBranches(a, sub, h, i + 1)
  {
  }

  /** The node itself joins what was freed below it exactly when its whole subtree is texture-free. */
  lemma EvictedNode(a: Arena, s: nat, h: nat, f: set<nat>, del: bool)
    requires s < |a| && a[s].Some? && f == EvictedBelow(a, a[s].value.subtile, h)
    requires del <==> NullTree(a, s, h)
    ensures (if del then f + {s} else f) == Evicted(a, s, h)
  {
  }

  lemma SubtilesEnd(a: Arena, sub: Subtiles, h: nat, b: Arena, sub': Subtiles, n: nat, F: set<nat>)
    requires SubtilesDone(a, sub, h, 4, b, sub', n, F)
    ensures F <= Below(a, sub, h) && b == PruneIn(a, F, Below(a, sub, h))
    ensures TileSound(b, sub', h) && Below(b, sub', h) <= Below(a, sub, h)
  {
    var hc := if h > 0 then h - 1 else 0;
    if h == 0 {
      PruneNothing(a, Branches(a, sub, hc, 4));
      PruneNothing(a, Below(a, sub, h));
      LeafSound(a, sub, h);
    } else {
      assert Branches(a, sub, hc, 4) == Below(a, sub, h);
    }
    forall x | x in Below(a, sub, h) && x !in F ensures x < |a| && a[x].Some? {
      BelowLive(a, sub, h, x);
    }
    PruneTileSound(a, b, F, sub, h);
  }
}
