/**
 * The preload step of `LoadTextures`: every surface and mask texture of the
 * tiles below level 8 is read up front into two buffers, and
 * `AddSubtileTextures` walks each tree, node before children, moving into
 * every node the textures its stored ranks name.
 *
 * The walk is specified by `FillAll`, the same per-node step applied along
 * a sequence of slots, and `Preorder` is the order in which the recursion
 * visits a tree. The lemmas say what the walk leaves: every visited node is
 * marked loaded and keeps its links, a buffered texture goes to the first
 * node whose rank names it and to no other, its buffer slot is cleared, and
 * `tmissing` grows by the ranks that name no loaded texture.
 */
module Preload {
  import opened TileTypes
  import opened TileArena
  import opened TileBuffers
  import opened Toc
  import opened Forests
  import BaseLoad

  /** The two texture fields of a node. */
  datatype Layer = Surf | Lmask

  function Ref(t: Tile, c: Layer): TexRef
  {
    if c == Surf then t.tex else t.ltex
  }

  /** A buffer of loaded textures; a slot that was handed to a node is cleared. */
  type TexBuf = seq<Option<Ptr>>

  /** What the walk threads through the tree: both buffers and `tmissing`. */
  datatype Stock = Stock(tb: TexBuf, mb: TexBuf, miss: nat)

  function Buf(st: Stock, c: Layer): TexBuf
  {
    if c == Surf then st.tb else st.mb
  }

  /** Index `idx` names one of the n textures of a buffer. */
  predicate Claims(idx: Dword, n: nat)
  {
    idx != NOTILE && idx < n
  }

  /** Index `idx` names a texture beyond the n that were loaded. */
  predicate Misses(idx: Dword, n: nat)
  {
    idx != NOTILE && idx >= n
  }

  /** A texture taken from a buffer, and the buffer after. */
  datatype Took = Took(tex: TexRef, buf: TexBuf)

  /** One field of `AddSubtileTextures` (:376-398): the named texture moves out of the buffer. */
  function Take(idx: Dword, buf: TexBuf): (r: Took)
    ensures |r.buf| == |buf|
    ensures r.tex == if Claims(idx, |buf|) then Loaded(buf[idx]) else Null
    ensures forall k :: 0 <= k < |buf| ==> r.buf[k] == if Claims(idx, |buf|) && k == idx then None else buf[k]
  {
    if Claims(idx, |buf|) then Took(Loaded(buf[idx]), buf[idx := None]) else Took(Null, buf)
  }

  /** A node after its own step, and the stock after. */
  datatype Filled = Filled(t: Tile, st: Stock)

  /** The node step of `AddSubtileTextures` (:373-399). */
  function FillNode(t: Tile, st: Stock): Filled
  {
    var tidx, midx := SlotIndex(t.tex), SlotIndex(t.ltex);
    var s, m := Take(tidx, st.tb), Take(midx, st.mb);
    var miss := st.miss + (if Misses(tidx, |st.tb|) then 1 else 0) + (if Misses(midx, |st.mb|) then 1 else 0);
    Filled(t.(tex := s.tex, ltex := m.tex, flag := t.flag & !NOT_LOADED), Stock(s.buf, m.buf, miss))
  }

  /** A pool after a walk, and the stock after. */
  datatype Pass = Pass(a: Arena, st: Stock)

  /** The node step applied to the nodes in slots xs, in order; empty slots are passed over. */
  function FillAll(a: Arena, xs: seq<nat>, st: Stock): (r: Pass)
    ensures |r.a| == |a| && |r.st.tb| == |st.tb| && |r.st.mb| == |st.mb|
    ensures forall x :: 0 <= x < |a| ==> (r.a[x].Some? <==> a[x].Some?)
    ensures forall x :: 0 <= x < |a| && a[x].Some? ==> SameShape(a, r.a, x)
    ensures forall x :: 0 <= x < |a| && x !in xs ==> r.a[x] == a[x]
    decreases |xs|
  {
    if xs == [] then Pass(a, st)
    else if xs[0] < |a| && a[xs[0]].Some? then
      var f := FillNode(a[xs[0]].value, st);
      FillAll(a[xs[0] := Some(f.t)], xs[1..], f.st)
    else FillAll(a, xs[1..], st)
  }

  /** No slot is listed twice. */
  predicate Distinct(xs: seq<nat>)
  {
    forall p, q :: 0 <= p < q < |xs| ==> xs[p] != xs[q]
  }

  /** Every listed slot holds a node. */
  ghost predicate Fillable(a: Arena, xs: seq<nat>)
  {
    forall p :: 0 <= p < |xs| ==> xs[p] < |a| && a[xs[p]].Some?
  }

  /** The indices layer c of the listed nodes holds. */
  function Idx(a: Arena, xs: seq<nat>, c: Layer): (r: seq<Dword>)
    requires forall p :: 0 <= p < |xs| ==> xs[p] < |a| && a[xs[p]].Some?
    ensures |r| == |xs|
  {
    seq(|xs|, p requires 0 <= p < |xs| => SlotIndex(Ref(a[xs[p]].value, c)))
  }

  /** How many of the indices name a texture beyond the n loaded. */
  function MissCount(idx: seq<Dword>, n: nat): (m: nat)
    ensures m <= |idx|
  {
    if idx == [] then 0 else (if Misses(idx[0], n) then 1 else 0) + MissCount(idx[1..], n)
  }

  // ---------------------------------------------------------------------
  // What a walk leaves

  /** Walking xs then ys is walking xs + ys. */
  lemma {:induction false} FillAllConcat(a: Arena, xs: seq<nat>, ys: seq<nat>, st: Stock)
    ensures var r := FillAll(a, xs, st); FillAll(a, xs + ys, st) == FillAll(r.a, ys, r.st)
    decreases |xs|
  {
    if xs != [] {
      assert (xs + ys)[1..] == xs[1..] + ys;
      if xs[0] < |a| && a[xs[0]].Some? {
        var f := FillNode(a[xs[0]].value, st);
        FillAllConcat(a[xs[0] := Some(f.t)], xs[1..], ys, f.st);
      } else {
        FillAllConcat(a, xs[1..], ys, st);
      }
    } else {
      assert xs + ys == ys;
    }
  }

  /** The indices of nodes the walk has not reached yet are still the original ones. */
  lemma IdxFrame(a: Arena, b: Arena, xs: seq<nat>, c: Layer)
    requires Fillable(a, xs) && |b| == |a|
    requires forall p :: 0 <= p < |xs| ==> b[xs[p]] == a[xs[p]]
    ensures Fillable(b, xs) && Idx(b, xs, c) == Idx(a, xs, c)
  {
  }

  lemma IdxTail(a: Arena, xs: seq<nat>, c: Layer)
    requires Fillable(a, xs) && xs != []
    ensures Idx(a, xs, c) == [SlotIndex(Ref(a[xs[0]].value, c))] + Idx(a, xs[1..], c)
  {
  }

  /**
   * After a walk over distinct nodes, a buffer slot is cleared exactly when
   * some node's index names it; every other slot keeps its texture.
   */
  lemma {:induction false} FillBuffers(a: Arena, xs: seq<nat>, st: Stock, c: Layer)
    requires Fillable(a, xs) && Distinct(xs)
    ensures var r := FillAll(a, xs, st);
      forall k :: 0 <= k < |Buf(st, c)| ==>
        Buf(r.st, c)[k] == if k != NOTILE && k in Idx(a, xs, c) then None else Buf(st, c)[k]
    decreases |xs|
  {
    if xs != [] {
      var x := xs[0];
      var f := FillNode(a[x].value, st);
      var a1 := a[x := Some(f.t)];
      IdxFrame(a, a1, xs[1..], c);
      FillBuffers(a1, xs[1..], f.st, c);
      IdxTail(a, xs, c);
    }
  }

  /** Each node of a walk over distinct nodes gets the step it would get on the stock it meets. */
  lemma {:induction false} FillAt(a: Arena, xs: seq<nat>, st: Stock, p: nat)
    requires Fillable(a, xs) && Distinct(xs) && p < |xs|
    ensures FillAll(a, xs, st).a[xs[p]] == Some(FillNode(a[xs[p]].value, FillAll(a, xs[..p], st).st).t)
    decreases p
  {
    var x := xs[0];
    var f := FillNode(a[x].value, st);
    var a1 := a[x := Some(f.t)];
    if p == 0 {
      assert x !in xs[1..];
    } else {
      FillAt(a1, xs[1..], f.st, p - 1);
      assert xs[..p][0] == x && xs[..p][1..] == xs[1..][..p - 1];
    }
  }

  /**
   * The texture node number p of a walk over distinct nodes ends up with:
   * the buffered texture its index names if no earlier node named the same
   * one, nothing otherwise. The node is marked loaded and keeps its other
   * bits, links and slot.
   */
  lemma FillNodeResult(a: Arena, xs: seq<nat>, st: Stock, p: nat, c: Layer)
    requires Fillable(a, xs) && Distinct(xs) && p < |xs|
    ensures var t, t' := a[xs[p]].value, FillAll(a, xs, st).a[xs[p]].value;
      var i := SlotIndex(Ref(t, c));
      Ref(t', c) == (if Claims(i, |Buf(st, c)|) && i !in Idx(a, xs[..p], c) then Loaded(Buf(st, c)[i]) else Null) &&
      t'.flag == t.flag & !NOT_LOADED && t'.subtile == t.subtile && t'.ofs == t.ofs
  {
    FillAt(a, xs, st, p);
    assert Fillable(a, xs[..p]) && Distinct(xs[..p]);
    FillBuffers(a, xs[..p], st, c);
  }

  /** No two nodes of a walk get the texture of the same buffer slot. */
  lemma HandedOnce(a: Arena, xs: seq<nat>, st: Stock, p: nat, q: nat, c: Layer)
    requires Fillable(a, xs) && Distinct(xs) && p < q < |xs|
    requires SlotIndex(Ref(a[xs[p]].value, c)) == SlotIndex(Ref(a[xs[q]].value, c))
    ensures Ref(FillAll(a, xs, st).a[xs[q]].value, c) == Null
  {
    assert Idx(a, xs[..q], c)[p] == SlotIndex(Ref(a[xs[q]].value, c));
    FillNodeResult(a, xs, st, q, c);
  }

  /** The first of the listed nodes whose index is `k`. */
  lemma FirstNaming(a: Arena, xs: seq<nat>, c: Layer, k: Dword) returns (p: nat)
    requires Fillable(a, xs) && k in Idx(a, xs, c)
    ensures p < |xs| && SlotIndex(Ref(a[xs[p]].value, c)) == k && k !in Idx(a, xs[..p], c)
  {
    var q :| 0 <= q < |xs| && Idx(a, xs, c)[q] == k;
    p := 0;
    while Idx(a, xs, c)[p] != k
      invariant p <= q && forall r :: 0 <= r < p ==> Idx(a, xs, c)[r] != k
      decreases q - p
    {
      p := p + 1;
    }
    forall r | 0 <= r < p ensures Idx(a, xs[..p], c)[r] != k {
      assert Idx(a, xs[..p], c)[r] == Idx(a, xs, c)[r];
    }
  }

  /**
   * No texture is lost: a buffer slot that the walk cleared had its texture
   * moved into a listed node, the first one whose index names the slot.
   */
  lemma TextureMoved(a: Arena, xs: seq<nat>, st: Stock, c: Layer, k: nat)
    requires Fillable(a, xs) && Distinct(xs) && k < |Buf(st, c)| && k != NOTILE
    requires Buf(FillAll(a, xs, st).st, c)[k].None? && Buf(st, c)[k].Some?
    ensures exists p :: (0 <= p < |xs| && SlotIndex(Ref(a[xs[p]].value, c)) == k &&
      Ref(FillAll(a, xs, st).a[xs[p]].value, c) == Handle(Buf(st, c)[k].value))
  {
    FillBuffers(a, xs, st, c);
    var p := FirstNaming(a, xs, c, k);
    FillNodeResult(a, xs, st, p, c);
  }

  /** `tmissing` grows by the listed indices that name no loaded texture, in both layers. */
  lemma {:induction false} FillMisses(a: Arena, xs: seq<nat>, st: Stock)
    requires Fillable(a, xs) && Distinct(xs)
    ensures FillAll(a, xs, st).st.miss ==
      st.miss + MissCount(Idx(a, xs, Surf), |st.tb|) + MissCount(Idx(a, xs, Lmask), |st.mb|)
    decreases |xs|
  {
    if xs != [] {
      var x := xs[0];
      var f := FillNode(a[x].value, st);
      var a1 := a[x := Some(f.t)];
      IdxFrame(a, a1, xs[1..], Surf);
      IdxFrame(a, a1, xs[1..], Lmask);
      FillMisses(a1, xs[1..], f.st);
      IdxTail(a, xs, Surf);
      IdxTail(a, xs, Lmask);
    }
  }

  // ---------------------------------------------------------------------
  // The visiting order of the recursion

  /** The slots of the tree at s, node before children, children in order 0..3. */
  ghost function Preorder(a: Arena, s: nat, h: nat): seq<nat>
    decreases h, 1, a
  {
    [s] + (if s < |a| && a[s].Some? then PreBelow(a, a[s].value.subtile, h, 4) else [])
  }

  /** The slots below the first n child links, each child's tree in preorder. */
  ghost function PreBelow(a: Arena, sub: Subtiles, h: nat, n: nat): seq<nat>
    requires n <= 4
    decreases h, 0, a, n
  {
    if h == 0 || n == 0 then []
    else PreBelow(a, sub, h, n - 1) + (if sub[n - 1].Some? then Preorder(a, sub[n - 1].value, h - 1) else [])
  }

  lemma DistinctConcat(xs: seq<nat>, ys: seq<nat>)
    requires Distinct(xs) && Distinct(ys) && forall x :: x in xs ==> x !in ys
    ensures Distinct(xs + ys)
  {
    forall p, q | 0 <= p < q < |xs + ys| ensures (xs + ys)[p] != (xs + ys)[q] {
      if p < |xs| && q >= |xs| {
        assert (xs + ys)[p] in xs && (xs + ys)[q] in ys;
      }
    }
  }

  /** A sound tree is visited once node by node, and the visit lists exactly its slots. */
  lemma {:induction false} PreorderTree(a: Arena, s: nat, h: nat)
    requires NodeSound(a, s, h)
    ensures Distinct(Preorder(a, s, h))
    ensures forall x :: x in Preorder(a, s, h) <==> x in Tree(a, s, h)
    decreases h, 1
  {
    var sub := a[s].value.subtile;
    PreBelowTree(a, sub, h, 4);
    DistinctConcat([s], PreBelow(a, sub, h, 4));
  }

  lemma {:induction false} PreBelowTree(a: Arena, sub: Subtiles, h: nat, n: nat)
    requires TileSound(a, sub, h) && n <= 4
    ensures Distinct(PreBelow(a, sub, h, n))
    ensures forall x :: x in PreBelow(a, sub, h, n) <==> h > 0 && x in Branches(a, sub, h - 1, n)
    decreases h, 0, n
  {
    if h > 0 && n > 0 {
      PreBelowTree(a, sub, h, n - 1);
      var ys := if sub[n - 1].Some? then Preorder(a, sub[n - 1].value, h - 1) else [];
      if sub[n - 1].Some? {
        PreorderTree(a, sub[n - 1].value, h - 1);
      }
      BranchDisjoint(a, sub, h, n - 1, n - 1);
      DistinctConcat(PreBelow(a, sub, h, n - 1), ys);
    }
  }

  /** The visiting order depends only on the links of the tree's nodes. */
  lemma {:induction false} PreorderFrame(a: Arena, b: Arena, s: nat, h: nat)
    requires NodeSound(a, s, h)
    requires forall x :: x in Tree(a, s, h) ==> SameShape(a, b, x)
    ensures Preorder(b, s, h) == Preorder(a, s, h)
    decreases h, 1
  {
    assert s in Tree(a, s, h);
    var sub := a[s].value.subtile;
    PreBelowFrame(a, b, sub, h, 4);
  }

  lemma {:induction false} PreBelowFrame(a: Arena, b: Arena, sub: Subtiles, h: nat, n: nat)
    requires TileSound(a, sub, h) && n <= 4
    requires forall x :: x in Below(a, sub, h) ==> SameShape(a, b, x)
    ensures PreBelow(b, sub, h, n) == PreBelow(a, sub, h, n)
    decreases h, 0, n
  {
    if h > 0 && n > 0 {
      PreBelowFrame(a, b, sub, h, n - 1);
      if sub[n - 1].Some? {
        BranchInBelow(a, sub, h, n - 1);
        PreorderFrame(a, b, sub[n - 1].value, h - 1);
      }
    }
  }

  // ---------------------------------------------------------------------
  // The recursion itself

  /** One field of the node step, on the buffer in place. */
  method TakeTexture(buf: array<Option<Ptr>>, idx: Dword, miss: nat) returns (tex: TexRef, miss': nat)
    modifies buf
    ensures Took(tex, buf[..]) == Take(idx, old(buf[..]))
    ensures miss' == miss + if Misses(idx, buf.Length) then 1 else 0
  {
    miss' := miss;
    if idx != NOTILE {
      if idx < buf.Length {
        tex := Loaded(buf[idx]);
        buf[idx] := None;
      } else {
        miss' := miss' + 1;
        tex := Null;
      }
    } else {
      tex := Null;
    }
  }

  /** The tree below child link i, in preorder (nothing when there is none). */
  ghost function ChildOrder(a: Arena, sub: Subtiles, h: nat, i: nat): seq<nat>
    requires i < 4
  {
    if h > 0 && sub[i].Some? then Preorder(a, sub[i].value, h - 1) else []
  }

  /** Every node of `a` is in `b`, with the same links. */
  ghost predicate Shaped(a: Arena, b: Arena)
  {
    |b| == |a| && forall x :: 0 <= x < |a| && a[x].Some? ==> SameShape(a, b, x)
  }

  /**
   * `AddSubtileTextures` (:371-401) on the slot table `a`, the surface
   * buffer `tb` and the mask buffer `mb` (one slot per loaded texture):
   * the node at s takes its textures, is marked loaded, and then each
   * child's tree in turn. The result is the walk of the tree in preorder.
   */
  method FillTree(a: Arena, s: nat, ghost h: nat, tb: array<Option<Ptr>>, mb: array<Option<Ptr>>, miss: nat)
    returns (a': Arena, miss': nat)
    requires NodeSound(a, s, h) && tb != mb
    modifies tb, mb
    decreases h, 1
    ensures Pass(a', Stock(tb[..], mb[..], miss')) == FillAll(a, Preorder(a, s, h), Stock(old(tb[..]), old(mb[..]), miss))
  {
    ghost var st0 := Stock(tb[..], mb[..], miss);
    var t := a[s].value;
    a', miss' := FillSelf(a, s, tb, mb, miss);
    var i := 0;
    while i < 4
      invariant 0 <= i <= 4
      invariant Pass(a', Stock(tb[..], mb[..], miss')) == FillAll(a, [s] + PreBelow(a, t.subtile, h, i), st0)
    {
      OrderStep(a, a, [s], t.subtile, h, i, st0);
      a', miss' := FillChild(a, t.subtile, h, i, a', tb, mb, miss');
      i := i + 1;
    }
  }

  /** The node step of `AddSubtileTextures` (:373-399) on the buffers in place. */
  method FillSelf(a: Arena, s: nat, tb: array<Option<Ptr>>, mb: array<Option<Ptr>>, miss: nat)
    returns (a': Arena, miss': nat)
    requires s < |a| && a[s].Some? && tb != mb
    modifies tb, mb
    ensures Pass(a', Stock(tb[..], mb[..], miss')) == FillAll(a, [s], Stock(old(tb[..]), old(mb[..]), miss))
  {
    var t := a[s].value;
    var tex, ltex;
    tex, miss' := TakeTexture(tb, SlotIndex(t.tex), miss);
    ltex, miss' := TakeTexture(mb, SlotIndex(t.ltex), miss');
    a' := a[s := Some(t.(tex := tex, ltex := ltex, flag := t.flag & !NOT_LOADED))];
    assert [s][1..] == [];
  }

  /** A walk that has covered the trees below i links continues with the tree below link i. */
  lemma OrderStep(a: Arena, o: Arena, done: seq<nat>, sub: Subtiles, h: nat, i: nat, st: Stock)
    requires i < 4
    ensures var r := FillAll(a, done + PreBelow(o, sub, h, i), st);
      FillAll(a, done + PreBelow(o, sub, h, i + 1), st) == FillAll(r.a, ChildOrder(o, sub, h, i), r.st)
  {
    FillAllConcat(a, done + PreBelow(o, sub, h, i), ChildOrder(o, sub, h, i), st);
    PreBelowStep(o, done, sub, h, i);
  }

  lemma PreBelowStep(a: Arena, done: seq<nat>, sub: Subtiles, h: nat, i: nat)
    requires i < 4
    ensures done + PreBelow(a, sub, h, i + 1) == (done + PreBelow(a, sub, h, i)) + ChildOrder(a, sub, h, i)
  {
  }

  /** One turn of the child loop of `AddSubtileTextures` (:400): the tree below link i of the sound links `sub` of `a0`. */
  method FillChild(ghost a0: Arena, sub: Subtiles, ghost h: nat, i: nat, a: Arena,
                   tb: array<Option<Ptr>>, mb: array<Option<Ptr>>, miss: nat)
    returns (a': Arena, miss': nat)
    requires TileSound(a0, sub, h) && i < 4 && tb != mb && Shaped(a0, a)
    modifies tb, mb
    decreases h, 0
    ensures Pass(a', Stock(tb[..], mb[..], miss')) == FillAll(a, ChildOrder(a0, sub, h, i), Stock(old(tb[..]), old(mb[..]), miss))
  {
    if sub[i].Some? {
      var c := sub[i].value;
      assert NodeSound(a0, c, h - 1);
      forall x | x in Tree(a0, c, h - 1) ensures SameShape(a0, a, x) {
        TreeLive(a0, c, h - 1, x);
      }
      NodeFrame(a0, a, c, h - 1);
      PreorderFrame(a0, a, c, h - 1);
      a', miss' := FillTree(a, c, h - 1, tb, mb, miss);
    } else {
      a', miss' := a, miss;
    }
  }

  // ---------------------------------------------------------------------
  // All trees below level 8

  /** The child links of level-8 tile k of the base table d. */
  function Links8(d: seq<Tile>, k: nat): Subtiles
    requires BaseLoad.TILE8 + BaseLoad.NTILE8 <= |d| && k < BaseLoad.NTILE8
  {
    d[BaseLoad.TILE8 + k].subtile
  }

  /**
   * The links of the level-8 tiles of the base table d are sound at height
   * h and no two of them share a slot: the part of `Forest` the walk needs,
   * for a height that is a parameter rather than the constant.
   */
  ghost predicate Grove(a: Arena, d: seq<Tile>, h: nat)
  {
    BaseLoad.TILE8 + BaseLoad.NTILE8 <= |d| &&
    (forall k :: 0 <= k < BaseLoad.NTILE8 ==> TileSound(a, Links8(d, k), h)) &&
    (forall k, k' :: 0 <= k < k' < BaseLoad.NTILE8 ==>
       Below(a, Links8(d, k), h) !! Below(a, Links8(d, k'), h))
  }

  lemma ForestGrove(a: Arena, d: seq<Tile>)
    requires Forest(a, d) && BaseLoad.TILE8 + BaseLoad.NTILE8 <= |d|
    ensures Grove(a, d, BASE_HEIGHT)
  {
    forall k, k' | 0 <= k < k' < BaseLoad.NTILE8
      ensures Below(a, Links8(d, k), BASE_HEIGHT) !! Below(a, Links8(d, k'), BASE_HEIGHT)
    {
      assert BaseLoad.TILE8 + k < BaseLoad.TILE8 + k' < |d|;
    }
  }

  /** The slots the walk visits below the first i level-8 tiles of the base table d. */
  ghost function BaseOrder(a: Arena, d: seq<Tile>, i: nat, h: nat): seq<nat>
    requires BaseLoad.TILE8 + BaseLoad.NTILE8 <= |d| && i <= BaseLoad.NTILE8
    decreases i, a
  {
    if i == 0 then [] else BaseOrder(a, d, i - 1, h) + PreBelow(a, Links8(d, i - 1), h, 4)
  }

  /** Slot x lies below level-8 tile k. */
  ghost predicate InBase(a: Arena, d: seq<Tile>, k: nat, x: nat, h: nat)
    requires BaseLoad.TILE8 + BaseLoad.NTILE8 <= |d| && k < BaseLoad.NTILE8
  {
    x in Below(a, Links8(d, k), h)
  }

  /** A slot the walk below the first i level-8 tiles visits lies below one of them. */
  lemma {:induction false} BaseOrderIn(a: Arena, d: seq<Tile>, i: nat, x: nat, h: nat) returns (k: nat)
    requires Grove(a, d, h) && i <= BaseLoad.NTILE8
    requires x in BaseOrder(a, d, i, h)
    ensures k < i && InBase(a, d, k, x, h)
  {
    var sub := Links8(d, i - 1);
    if x in BaseOrder(a, d, i - 1, h) {
      k := BaseOrderIn(a, d, i - 1, x, h);
    } else {
      PreBelowTree(a, sub, h, 4);
      k := i - 1;
    }
  }

  /** Every slot below one of the first i level-8 tiles is visited by the walk below them. */
  lemma {:induction false} BaseOrderHas(a: Arena, d: seq<Tile>, i: nat, k: nat, x: nat, h: nat)
    requires Grove(a, d, h) && k < i <= BaseLoad.NTILE8
    requires InBase(a, d, k, x, h)
    ensures x in BaseOrder(a, d, i, h)
  {
    if k < i - 1 {
      BaseOrderHas(a, d, i - 1, k, x, h);
    } else {
      PreBelowTree(a, Links8(d, k), h, 4);
    }
  }

  /** The walk below the level-8 tiles visits every node below them exactly once. */
  lemma {:induction false} BaseOrderSound(a: Arena, d: seq<Tile>, i: nat, h: nat)
    requires Grove(a, d, h) && i <= BaseLoad.NTILE8
    ensures Distinct(BaseOrder(a, d, i, h)) && Fillable(a, BaseOrder(a, d, i, h))
  {
    if i > 0 {
      var sub := Links8(d, i - 1);
      var xs, ys := BaseOrder(a, d, i - 1, h), PreBelow(a, sub, h, 4);
      BaseOrderSound(a, d, i - 1, h);
      PreBelowTree(a, sub, h, 4);
      forall x | x in xs ensures x !in ys {
        var k := BaseOrderIn(a, d, i - 1, x, h);
        assert Below(a, Links8(d, k), h) !! Below(a, sub, h);
      }
      DistinctConcat(xs, ys);
      forall p | 0 <= p < |ys| ensures Live(a, ys[p]) {
        assert ys[p] in ys;
        BelowLive(a, sub, h, ys[p]);
      }
      FillableConcat(a, xs, ys);
    }
  }

  lemma FillableConcat(a: Arena, xs: seq<nat>, ys: seq<nat>)
    requires Fillable(a, xs) && forall p :: 0 <= p < |ys| ==> Live(a, ys[p])
    ensures Fillable(a, xs + ys)
  {
    forall p | 0 <= p < |xs + ys| ensures (xs + ys)[p] < |a| && a[(xs + ys)[p]].Some? {
      if p >= |xs| {
        assert (xs + ys)[p] == ys[p - |xs|];
      }
    }
  }

  /** The walk depends only on the links of the base tiles. */
  lemma {:induction false} BaseOrderLinks(a: Arena, d: seq<Tile>, d': seq<Tile>, i: nat, h: nat)
    requires BaseLoad.TILE8 + BaseLoad.NTILE8 <= |d| == |d'| && i <= BaseLoad.NTILE8
    requires forall k :: 0 <= k < |d| ==> d'[k].subtile == d[k].subtile
    ensures BaseOrder(a, d', i, h) == BaseOrder(a, d, i, h)
  {
    if i > 0 {
      BaseOrderLinks(a, d, d', i - 1, h);
    }
  }

  /** Rewriting nodes without touching their links or slots keeps the forest. */
  lemma ForestShaped(a: Arena, b: Arena, d: seq<Tile>)
    requires Forest(a, d) && Shaped(a, b)
    ensures Forest(b, d)
  {
    forall i | 0 <= i < |d| ensures TileSound(b, d[i].subtile, BASE_HEIGHT) &&
      Below(b, d[i].subtile, BASE_HEIGHT) == Below(a, d[i].subtile, BASE_HEIGHT)
    {
      forall x | x in Below(a, d[i].subtile, BASE_HEIGHT) ensures SameShape(a, b, x) {
        BelowLive(a, d[i].subtile, BASE_HEIGHT, x);
      }
      TileFrame(a, b, d[i].subtile, BASE_HEIGHT);
    }
  }

  /**
   * The copy loop of `PreloadTileTextures` (:347-352): the trees below the
   * child links of the 364 level-8 tiles of d, in tile order and link order.
   */
  method FillBase(a: Arena, d: seq<Tile>, ghost h: nat, tb: array<Option<Ptr>>, mb: array<Option<Ptr>>, miss: nat)
    returns (a': Arena, miss': nat)
    requires Grove(a, d, h) && tb != mb
    modifies tb, mb
    ensures Pass(a', Stock(tb[..], mb[..], miss')) ==
      FillAll(a, BaseOrder(a, d, BaseLoad.NTILE8, h), Stock(old(tb[..]), old(mb[..]), miss))
  {
    ghost var st0 := Stock(tb[..], mb[..], miss);
    a', miss' := a, miss;
    for i := 0 to BaseLoad.NTILE8
      invariant Pass(a', Stock(tb[..], mb[..], miss')) == FillAll(a, BaseOrder(a, d, i, h), st0)
    {
      FillAllConcat(a, BaseOrder(a, d, i, h), PreBelow(a, Links8(d, i), h, 4), st0);
      a', miss' := FillLinks(a, Links8(d, i), h, a', tb, mb, miss');
    }
  }

  /** The inner loop of :349-351: the trees below the four child links `sub` of `a0`, in link order. */
  method FillLinks(ghost a0: Arena, sub: Subtiles, ghost h: nat, a: Arena,
                   tb: array<Option<Ptr>>, mb: array<Option<Ptr>>, miss: nat)
    returns (a': Arena, miss': nat)
    requires TileSound(a0, sub, h) && tb != mb && Shaped(a0, a)
    modifies tb, mb
    ensures Pass(a', Stock(tb[..], mb[..], miss')) == FillAll(a, PreBelow(a0, sub, h, 4), Stock(old(tb[..]), old(mb[..]), miss))
  {
    ghost var st0 := Stock(tb[..], mb[..], miss);
    a', miss' := a, miss;
    assert [] + PreBelow(a0, sub, h, 0) == [];
    for j := 0 to 4
      invariant Pass(a', Stock(tb[..], mb[..], miss')) == FillAll(a, [] + PreBelow(a0, sub, h, j), st0)
      invariant Shaped(a0, a')
    {
      OrderStep(a, a0, [], sub, h, j, st0);
      a', miss' := FillChild(a0, sub, h, j, a', tb, mb, miss');
    }
    assert [] + PreBelow(a0, sub, h, 4) == PreBelow(a0, sub, h, 4);
  }

  /** A buffer with every one of the loaded textures in it. */
  function Full(loaded: seq<Ptr>): (b: TexBuf)
    ensures |b| == |loaded| && forall k :: 0 <= k < |b| ==> b[k] == Some(loaded[k])
  {
    seq(|loaded|, k requires 0 <= k < |loaded| => Some(loaded[k]))
  }

  /** The textures still held in a buffer. */
  function Held(b: TexBuf): multiset<Ptr>
  {
    if b == [] then multiset{} else Held(b[..|b| - 1]) + (if b[|b| - 1].Some? then multiset{b[|b| - 1].value} else multiset{})
  }

  /** A texture is held exactly when some slot still has it. */
  lemma {:induction false} HeldSlots(b: TexBuf, p: Ptr)
    ensures p in Held(b) <==> exists k :: 0 <= k < |b| && b[k] == Some(p)
  {
    if b != [] {
      HeldSlots(b[..|b| - 1], p);
      if p in Held(b[..|b| - 1]) {
        var k :| 0 <= k < |b| - 1 && b[..|b| - 1][k] == Some(p);
        assert b[k] == Some(p);
      }
      if k :| 0 <= k < |b| - 1 && b[k] == Some(p) {
        assert b[..|b| - 1][k] == Some(p);
      }
    }
  }

  /** The release loops of `PreloadTileTextures` (:354-365): every texture the walk left in the buffer is released. */
  method ReleaseHeld(buf: array<Option<Ptr>>, released: multiset<Ptr>) returns (rel: multiset<Ptr>)
    ensures rel == released + Held(buf[..])
  {
    rel := released;
    for i := 0 to buf.Length
      invariant rel == released + Held(buf[..i])
    {
      assert buf[..i + 1][..i] == buf[..i];
      if buf[i].Some? {
        rel := rel + multiset{buf[i].value};
      }
    }
    assert buf[..buf.Length] == buf[..];
  }

  /** The walk of `PreloadTileTextures` over pool a below the level-8 tiles of d, from full buffers. */
  ghost function PreloadPass(a: Arena, d: seq<Tile>, h: nat, loaded: seq<Ptr>, masks: seq<Ptr>, miss: nat): Pass
    requires BaseLoad.TILE8 + BaseLoad.NTILE8 <= |d|
  {
    FillAll(a, BaseOrder(a, d, BaseLoad.NTILE8, h), Stock(Full(loaded), Full(masks), miss))
  }

  /**
   * `PreloadTileTextures` (:321-366) on the pool a and the base table d:
   * both buffers are filled with the textures loaded, the trees below the
   * level-8 tiles take theirs, and what is left is released.
   */
  method PreloadAll(a: Arena, d: seq<Tile>, ghost h: nat, loaded: seq<Ptr>, masks: seq<Ptr>, miss: nat, released: multiset<Ptr>)
    returns (a': Arena, miss': nat, rel: multiset<Ptr>)
    requires Grove(a, d, h)
    ensures var r := PreloadPass(a, d, h, loaded, masks, miss);
      a' == r.a && miss' == r.st.miss && rel == released + Held(r.st.tb) + Held(r.st.mb)
  {
    var tb := FullBuffer(loaded);
    var mb := FullBuffer(masks);
    a', miss' := FillBase(a, d, h, tb, mb, miss);
    rel := ReleaseHeld(tb, released);
    rel := ReleaseHeld(mb, rel);
  }

  /** A buffer of the textures the texture manager loaded (:333, :342). */
  method FullBuffer(loaded: seq<Ptr>) returns (b: array<Option<Ptr>>)
    ensures fresh(b) && b[..] == Full(loaded)
  {
    b := new Option<Ptr>[|loaded|](k requires 0 <= k < |loaded| => Some(loaded[k]));
  }

  /** The walk keeps every node's slot and links, so the forest stays a forest. */
  lemma PreloadForest(a: Arena, d: seq<Tile>, loaded: seq<Ptr>, masks: seq<Ptr>, miss: nat)
    requires Forest(a, d) && BaseLoad.TILE8 + BaseLoad.NTILE8 <= |d|
    ensures var b := PreloadPass(a, d, BASE_HEIGHT, loaded, masks, miss).a;
      Forest(b, d) && Shaped(a, b)
  {
    ForestShaped(a, PreloadPass(a, d, BASE_HEIGHT, loaded, masks, miss).a, d);
  }

  // ---------------------------------------------------------------------
  // The stored mask index of a node built without a mask

  /**
   * A node built as :256-268 write it, from an entry without a mask (or
   * with masks disabled), reads back mask index 0: the walk moves mask
   * texture 0 into it and clears that buffer slot.
   */
  lemma AsWrittenTakesMaskZero(e: TileFileSpec, cfg: TocConfig, ofs: nat, st: Stock)
    requires !(cfg.masks && e.midx != NOTILE) && |st.mb| > 0
    ensures var f := FillNode(TocNodeAsWritten(e, cfg, ofs), st);
      f.t.ltex == Loaded(st.mb[0]) && f.st.mb[0].None?
  {
  }

  /** The corrected node reads back `NOTILE`: it gets no mask and leaves the mask buffer alone. */
  lemma CorrectedTakesNoMask(e: TileFileSpec, cfg: TocConfig, ofs: nat, st: Stock)
    requires !(cfg.masks && e.midx != NOTILE)
    ensures var f := FillNode(TocNode(e, cfg, ofs), st);
      f.t.ltex == Null && f.st.mb == st.mb
  {
  }

  /**
   * The walk over two nodes built as written, with masks enabled: the first
   * entry has no mask, the second has mask rank 0, and one mask texture was
   * loaded. The first node takes that texture and the second, the one it
   * belongs to, is left without.
   */
  lemma AsWrittenStealsMask()
    ensures var cfg := TocConfig(14, 1, true);
      var bare, masked := TileFileSpec(1, NOTILE, NOTILE, [0, 0, 0, 0]), TileFileSpec(3, NOTILE, 0, [0, 0, 0, 0]);
      var a := [Some(TocNodeAsWritten(bare, cfg, 0)), Some(TocNodeAsWritten(masked, cfg, 1))];
      var r := FillAll(a, [0, 1], Stock([], [Some(7)], 0));
      r.a[0].value.ltex == Handle(7) && r.a[1].value.ltex == Null
  {
    var cfg := TocConfig(14, 1, true);
    var bare, masked := TileFileSpec(1, NOTILE, NOTILE, [0, 0, 0, 0]), TileFileSpec(3, NOTILE, 0, [0, 0, 0, 0]);
    var a := [Some(TocNodeAsWritten(bare, cfg, 0)), Some(TocNodeAsWritten(masked, cfg, 1))];
    var st := Stock([], [Some(7)], 0);
    var f0 := FillNode(a[0].value, st);
    assert f0.t.ltex == Handle(7) && f0.st.mb == [None];
    var a1 := a[0 := Some(f0.t)];
    var f1 := FillNode(a1[1].value, f0.st);
    assert f1.t.ltex == Null;
    assert [0, 1][1..] == [1] && [1][1..] == [];
  }

  /** The same two entries built as corrected: the mask texture goes to the entry it belongs to. */
  lemma CorrectedKeepsMask()
    ensures var cfg := TocConfig(14, 1, true);
      var bare, masked := TileFileSpec(1, NOTILE, NOTILE, [0, 0, 0, 0]), TileFileSpec(3, NOTILE, 0, [0, 0, 0, 0]);
      var a := [Some(TocNode(bare, cfg, 0)), Some(TocNode(masked, cfg, 1))];
      var r := FillAll(a, [0, 1], Stock([], [Some(7)], 0));
      r.a[0].value.ltex == Null && r.a[1].value.ltex == Handle(7)
  {
    var cfg := TocConfig(14, 1, true);
    var bare, masked := TileFileSpec(1, NOTILE, NOTILE, [0, 0, 0, 0]), TileFileSpec(3, NOTILE, 0, [0, 0, 0, 0]);
    var a := [Some(TocNode(bare, cfg, 0)), Some(TocNode(masked, cfg, 1))];
    var st := Stock([], [Some(7)], 0);
    var f0 := FillNode(a[0].value, st);
    assert f0.t.ltex == Null && f0.st.mb == [Some(7)];
    var a1 := a[0 := Some(f0.t)];
    var f1 := FillNode(a1[1].value, f0.st);
    assert f1.t.ltex == Handle(7);
    assert [0, 1][1..] == [1] && [1][1..] == [];
  }
}
