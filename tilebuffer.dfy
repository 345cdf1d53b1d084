/**
 * The tile buffer: the pool that holds every quadtree node below the base
 * levels, and the ring of load requests that the loader serves.
 *
 * A node is addressed by its slot in `buf`; an empty slot is `None`. The
 * loader thread's body is modelled as one service step, `ServiceStep`, that
 * takes the archive reader as a parameter.
 */
module TileBuffers {
  import opened TileTypes
  import opened TileArena
  import opened Archive

  /** A load request: the planet's archive base name and the node to fill. */
  datatype QueueDesc = QueueDesc(name: string, td: nat)

  /**
   * The archive reader: the texture stored in file `name` at byte offset
   * `ofs`, or None when the read fails.
   */
  type Reader = (string, int) -> Option<Ptr>

  function Loaded(o: Option<Ptr>): (r: TexRef)
    ensures r.Null? <==> o.None?
    ensures o.Some? ==> r == Handle(o.value)
  {
    if o.Some? then Handle(o.value) else Null
  }

  /** The surface texture the loader fetches for a queued node. */
  function SurfaceTexture(td: Tile, name: string, read: Reader): (r: TexRef)
    ensures SlotIndex(td.tex) == NOTILE ==> r.Null?
    ensures SlotIndex(td.tex) != NOTILE ==>
      r == Loaded(read(name + "_tile.tex", ArchiveOffset(SlotIndex(td.tex), td.flag)))
    ensures !r.Index?
  {
    var tidx := SlotIndex(td.tex);
    if tidx == NOTILE then Null else Loaded(read(name + "_tile.tex", ArchiveOffset(tidx, td.flag)))
  }

  /**
   * The mask texture (specular mask and night lights) the loader fetches:
   * only when the flags ask for one, and none for a NOTILE index.
   */
  function MaskTexture(td: Tile, name: string, read: Reader): (r: TexRef)
    ensures !HasMask(td.flag) || SlotIndex(td.ltex) == NOTILE ==> r.Null?
    ensures HasMask(td.flag) && SlotIndex(td.ltex) != NOTILE ==>
      r == Loaded(read(name + "_tile_lmask.tex", ArchiveOffset(SlotIndex(td.ltex), td.flag)))
    ensures !r.Index?
  {
    if !HasMask(td.flag) then Null
    else
      var midx := SlotIndex(td.ltex);
      if midx == NOTILE then Null else Loaded(read(name + "_tile_lmask.tex", ArchiveOffset(midx, td.flag)))
  }

  /**
   * The node as the loader leaves it: textures in place of archive indices,
   * and the "not loaded" and "old-style index" bits cleared.
   */
  function Served(td: Tile, name: string, read: Reader): (r: Tile)
    ensures r.flag & NOT_LOADED == 0 && r.flag & OLD_INDEX == 0
    ensures r.flag & 0x3F == td.flag & 0x3F
    ensures r.subtile == td.subtile && r.ofs == td.ofs
    ensures !r.tex.Index? && !r.ltex.Index?
  {
    Tile(SurfaceTexture(td, name, read), MaskTexture(td, name, read), td.flag & 0x3F, td.subtile, td.ofs)
  }

  /**
   * Serving does not consult the archive when the node has neither a surface
   * index nor a mask to fetch.
   */
  lemma ServedWithoutReading(td: Tile, name: string, r1: Reader, r2: Reader)
    requires SlotIndex(td.tex) == NOTILE && !HasMask(td.flag)
    ensures Served(td, name, r1) == Served(td, name, r2)
  {
  }

  /** Position k steps after l on a ring of n entries. */
  function Rot(k: nat, l: nat, n: nat): (r: nat)
    requires n > 0
    ensures r < n
  {
    (k + l) % n
  }

  /** The only multiple of n strictly between -n and n is 0. */
  lemma MulSmall(d: int, n: int)
    requires n > 0 && -n < d * n < n
    ensures d == 0
  {
    if d >= 1 {
      MulAtLeast(d, n);
    } else if d <= -1 {
      MulAtLeast(-d, n);
    }
  }

  lemma MulAtLeast(q: int, n: int)
    requires q >= 1 && n > 0
    ensures q * n >= n
  {
    if q > 1 {
      MulAtLeast(q - 1, n);
    }
  }

  /** The remainder is determined by any quotient-remainder split. */
  lemma ModUnique(x: int, n: int, q: int, r: int)
    requires n > 0 && 0 <= r < n && x == q * n + r
    ensures x % n == r
  {
    var q', r' := x / n, x % n;
    assert x == q' * n + r';
    assert (q - q') * n == r' - r;
    MulSmall(q - q', n);
  }

  /** Within one turn of the ring, a position is one addition away. */
  lemma RotSmall(k: nat, l: nat, n: nat)
    requires 0 < n && k + l < 2 * n
    ensures Rot(k, l, n) == if k + l < n then k + l else k + l - n
  {
    if k + l < n {
      ModUnique(k + l, n, 0, k + l);
    } else {
      ModUnique(k + l, n, 1, k + l - n);
    }
  }

  /** Advancing the start by one step shifts every position by one. */
  lemma RingStep(o: nat, i: nat, n: nat)
    requires 0 < n && o < n && i < n
    ensures Rot(i, Rot(1, o, n), n) == Rot(i + 1, o, n)
  {
    RotSmall(1, o, n);
    var o' := Rot(1, o, n);
    RotSmall(i, o', n);
    if i + 1 < n {
      RotSmall(i + 1, o, n);
    } else {
      ModUnique(i + 1 + o, n, 1, o);
    }
  }

  /** One step past position i is position i + 1. */
  lemma RingAdvance(o: nat, i: nat, n: nat)
    requires o < n && i < n
    ensures Rot(1, Rot(i, o, n), n) == Rot(i + 1, o, n)
  {
    RotSmall(i, o, n);
    RotSmall(1, Rot(i, o, n), n);
    if i + 1 < n {
      RotSmall(i + 1, o, n);
    } else {
      ModUnique(i + 1 + o, n, 1, o);
    }
  }

  /** Distinct offsets smaller than the ring size are distinct positions. */
  lemma RingDistinct(o: nat, i: nat, j: nat, n: nat)
    requires o < n && i < j < n
    ensures Rot(i, o, n) != Rot(j, o, n)
  {
    RotSmall(i, o, n);
    RotSmall(j, o, n);
  }

  /** Rotation by `l` visits every slot of the table once. */
  lemma RotationCovers(a: Arena, l: nat, i: nat)
    requires 0 < |a| && l < |a| && i <= |a|
    requires forall k :: 0 <= k < i ==> a[Rot(k, l, |a|)].Some?
    ensures i == |a| ==> CountLive(a) == |a|
  {
    var n := |a|;
    if i == n {
      forall j | 0 <= j < n ensures a[j].Some? {
        var k := if j >= l then j - l else j - l + n;
        RotSmall(k, l, n);
        assert Rot(k, l, n) == j;
      }
      CountFull(a);
    }
  }

  /** Every node records its own slot. */
  ghost predicate OwnSlots(a: Arena)
  {
    forall j :: 0 <= j < |a| && a[j].Some? ==> a[j].value.ofs == j
  }

  lemma OwnSlotsWrite(a: Arena, s: nat, v: Option<Tile>)
    requires OwnSlots(a) && s < |a| && (v.Some? ==> v.value.ofs == s)
    ensures OwnSlots(a[s := v])
  {
  }

  /**
   * `DeleteSubTiles` on the slot table `a`: frees, at every depth below
   * the child links `sub`, every subtree that holds no surface texture
   * anywhere (`EvictedBelow(a, sub, h)`), and returns
   * the new table, the links with the freed children cleared, and the number
   * of nodes freed.
   */
  method EvictSubTiles(a: Arena, sub: Subtiles, ghost h: nat) returns (a': Arena, sub': Subtiles, n: nat, ghost freed: set<nat>)
    requires TileSound(a, sub, h)
    decreases h, 1
    ensures freed <= Below(a, sub, h) && Evictable(a, freed)
    ensures a' == PruneIn(a, freed, Below(a, sub, h))
    ensures sub' == PruneLinks(sub, freed)
    ensures freed == EvictedBelow(a, sub, h)
    ensures forall k :: 0 <= k < 4 && sub[k].Some? ==>
      (sub[k].value in freed <==> h > 0 && NullTree(a, sub[k].value, h - 1))
    ensures n == |freed| && CountLive(a') == CountLive(a) - n
    ensures TileSound(a', sub', h) && Below(a', sub', h) <= Below(a, sub, h)
  {
    a', sub', n, freed := a, sub, 0, {};
    SubtilesStart(a, sub, h);
    var i := 0;
    ghost var hc: nat := if h > 0 then h - 1 else 0;
    while i < 4
      invariant 0 <= i <= 4 && SubtilesDone(a, sub, h, i, a', sub', n, freed)
      invariant h > 0 ==> freed == EvictedBranches(a, sub, hc, i)
    {
      if sub[i].Some? {
        ghost var F, f := freed, {};
        a', sub', n, freed, f := EvictChild(a, sub, h, i, a', sub', n, freed);
        EvictedNext(a, sub, hc, i, F, f);
      } else {
        SubtilesSkip(a, sub, h, i, a', sub', n, freed);
      }
      i := i + 1;
    }
    SubtilesEnd(a, sub, h, a', sub', n, freed);
  }

  /** One turn of the loop of `EvictSubTiles`: child i is evicted bottom-up. */
  method EvictChild(a: Arena, sub: Subtiles, ghost h: nat, i: nat, b: Arena, sub0: Subtiles, n0: nat, ghost F: set<nat>)
    returns (b': Arena, sub': Subtiles, n: nat, ghost freed: set<nat>, ghost f: set<nat>)
    requires i < 4 && sub[i].Some? && SubtilesDone(a, sub, h, i, b, sub0, n0, F)
    decreases h, 0
    ensures SubtilesDone(a, sub, h, i + 1, b', sub', n, freed)
    ensures h > 0 && freed == F + f && f == Evicted(a, sub[i].value, h - 1)
  {
    SubtilesChildIntact(a, sub, h, i, b, sub0, n0, F);
    SubtilesChildEvicted(a, sub, h, i, b, sub0, n0, F);
    var d, m;
    b', d, m, f := EvictTile(b, sub[i].value, h - 1);
    SubtilesChild(a, sub, h, i, b, sub0, n0, F, b', d, m, f);
    sub' := if d then sub0[i := None] else sub0;
    freed := F + f;
    n := n0 + m;
  }

  /**
   * `DeleteTile` on the slot table `a`: frees the subtree of node `s`
   * bottom-up. The nodes freed are exactly `Evicted(a, s, h)`: at every
   * depth, each node whose whole subtree holds no surface texture. So `s`
   * itself goes when it has no surface texture and no child is left.
   */
  method EvictTile(a: Arena, s: nat, ghost h: nat) returns (a': Arena, del: bool, n: nat, ghost freed: set<nat>)
    requires NodeSound(a, s, h)
    decreases h, 2
    ensures freed <= Tree(a, s, h) && Evictable(a, freed)
    ensures a' == PruneIn(a, freed, Tree(a, s, h))
    ensures freed == Evicted(a, s, h)
    ensures del <==> s in freed
    ensures del <==> NullTree(a, s, h)
    ensures n == |freed| && CountLive(a') == CountLive(a) - n
    ensures !del ==> NodeSound(a', s, h) && Tree(a', s, h) <= Tree(a, s, h)
  {
    var t := a[s].value;
    var b, sub', m;
    ghost var f;
    b, sub', m, f := EvictSubTiles(a, t.subtile, h);
    del := t.tex.Null? && forall k :: 0 <= k < 4 ==> sub'[k].None?;
    EvictNode(a, b, s, h, f, sub', del);
    EvictedNode(a, s, h, f, del);
    CountUpdate(b, s, Some(t.(subtile := sub')));
    a' := b[s := Some(t.(subtile := sub'))];
    n := m;
    if del {
      CountUpdate(a', s, None);
      a' := a'[s := None];
      n := n + 1;
      freed := f + {s};
    } else {
      freed := f;
    }
  }

  /** Pruning keeps every node in its own slot. */
  lemma PruneOwnSlots(a: Arena, F: set<nat>, D: set<nat>)
    requires OwnSlots(a)
    ensures OwnSlots(PruneIn(a, F, D))
  {
  }

  lemma OwnSlotsGrow(a: Arena, n: nat)
    requires OwnSlots(a)
    ensures OwnSlots(a + Nones(n))
  {
  }

  class TileBuffer {
    /** The node slots; `nbuf` is their number and `nused` the live ones. */
    var buf: Arena
    var nbuf: nat
    var nused: nat
    /** Where the last node was placed; the free-slot search starts here. */
    var last: nat

    /** The request ring of MAXQUEUE entries. */
    const loadqueue: array<QueueDesc>
    var nqueue: nat
    var queue_in: nat
    var queue_out: nat

    /** The pending requests, oldest first. */
    ghost function Window(): seq<QueueDesc>
      reads this`nqueue, this`queue_out, loadqueue
      requires loadqueue.Length > 0
    {
      var o, n, L := queue_out, nqueue, loadqueue.Length;
      seq(n, i requires 0 <= i < n reads loadqueue => loadqueue[Rot(i, o, L)])
    }

    /** Slot bookkeeping: counts agree with the table and nodes know their slot. */
    ghost predicate PoolValid()
      reads this`buf, this`nbuf, this`nused, this`last
    {
      nbuf == |buf| && nused == CountLive(buf) && (nbuf > 0 ==> last < nbuf) && OwnSlots(buf)
    }

    /** Ring bookkeeping: `queue_in` is `nqueue` steps after `queue_out`; no node is queued twice. */
    ghost predicate QueueValid()
      reads this`nqueue, this`queue_in, this`queue_out, loadqueue
    {
      loadqueue.Length > 0 && nqueue <= loadqueue.Length && queue_out < loadqueue.Length &&
      queue_in == Rot(nqueue, queue_out, loadqueue.Length) &&
      forall i, j :: 0 <= i < j < nqueue ==> Window()[i].td != Window()[j].td
    }

    ghost predicate Valid()
      reads this, loadqueue
    {
      PoolValid() && QueueValid()
    }

    /** An empty pool and an empty ring of `maxqueue` entries. */
    constructor (maxqueue: nat)
      requires maxqueue > 0
      ensures Valid() && fresh(loadqueue)
      ensures buf == [] && loadqueue.Length == maxqueue && Window() == []
    {
      buf, nbuf, nused, last := [], 0, 0, 0;
      loadqueue := new QueueDesc[maxqueue](_ => QueueDesc("", 0));
      nqueue, queue_in, queue_out := 0, 0, 0;
    }

    /**
     * Hands out a fresh zeroed node in an empty slot. A full pool grows by 16
     * empty slots first; otherwise the search for a free slot starts at the
     * slot used last and wraps around.
     */
    method AddTile() returns (s: nat)
      requires PoolValid()
      modifies this`buf, this`nbuf, this`nused, this`last
      ensures PoolValid()
      ensures var grown := if old(nused) == old(nbuf) then old(buf) + Nones(16) else old(buf);
        s < |grown| && grown[s].None? && buf == grown[s := Some(ZeroTile(s))]
      ensures nused == old(nused) + 1 && last == s
    {
      if nused == nbuf {
        CountAppendNones(buf, 16);
        OwnSlotsGrow(buf, 16);
        buf := buf + Nones(16);
        nbuf := nbuf + 16;
        last := nused;
      } else {
        ghost var l0 := last;
        var i := 0;
        while i < nbuf
          invariant 0 <= i <= nbuf && last == l0
          invariant forall k :: 0 <= k < i ==> buf[Rot(k, l0, nbuf)].Some?
        {
          var j := Rot(i, last, nbuf);
          if buf[j].None? {
            last := j;
            break;
          }
          i := i + 1;
        }
        RotationCovers(buf, l0, i);
        assert buf[last].None?;
      }
      s := last;
      CountUpdate(buf, s, Some(ZeroTile(s)));
      OwnSlotsWrite(buf, s, Some(ZeroTile(s)));
      buf := buf[s := Some(ZeroTile(s))];
      nused := nused + 1;
    }

    /** Overwrites the live node in slot s (the source writes through the node's pointer). */
    method SetTile(s: nat, t: Tile)
      requires PoolValid() && s < |buf| && buf[s].Some? && t.ofs == s
      modifies this`buf
      ensures PoolValid()
      ensures buf == old(buf)[s := Some(t)]
    {
      CountUpdate(buf, s, Some(t));
      OwnSlotsWrite(buf, s, Some(t));
      buf := buf[s := Some(t)];
    }

    /**
     * Overwrites the live nodes with a that keeps every slot's occupancy and
     * every node's own slot index (the source writes through the nodes' pointers).
     */
    method Refill(a: Arena)
      requires PoolValid() && |a| == |buf|
      requires forall x :: 0 <= x < |a| ==> (a[x].Some? <==> buf[x].Some?)
      requires forall x :: 0 <= x < |a| && a[x].Some? ==> a[x].value.ofs == buf[x].value.ofs
      modifies this`buf
      ensures PoolValid() && buf == a
    {
      CountSameLive(buf, a);
      buf := a;
    }

    /**
     * Queues a load request for `tile` unless the ring is full or the node
     * is already waiting.
     */
    method LoadTileAsync(name: string, tile: nat) returns (ok: bool)
      requires Valid()
      modifies this`nqueue, this`queue_in, loadqueue
      ensures Valid()
      ensures ok <==> old(nqueue) < loadqueue.Length && forall i :: 0 <= i < old(nqueue) ==> old(Window())[i].td != tile
      ensures Window() == if ok then old(Window()) + [QueueDesc(name, tile)] else old(Window())
    {
      var L := loadqueue.Length;
      ok := true;
      if nqueue == L {
        ok := false;
      } else {
        var i := 0;
        while i < nqueue
          invariant 0 <= i <= nqueue
          invariant forall k :: 0 <= k < i ==> Window()[k].td != tile
        {
          var j := Rot(i, queue_out, L);
          assert loadqueue[j] == Window()[i];
          if loadqueue[j].td == tile {
            ok := false;
            break;
          }
          i := i + 1;
        }
      }
      if ok {
        ghost var w := Window();
        loadqueue[queue_in] := QueueDesc(name, tile);
        nqueue := nqueue + 1;
        queue_in := Rot(1, queue_in, L);
        forall i | 0 <= i < nqueue ensures Window()[i] == (w + [QueueDesc(name, tile)])[i] {
          if i < nqueue - 1 {
            RingDistinct(queue_out, i, nqueue - 1, L);
          }
        }
        assert Window() == w + [QueueDesc(name, tile)];
        RingAdvance(queue_out, nqueue - 1, L);
      }
    }

    /**
     * One round of the loader: when a request is pending, fetch the oldest
     * request's textures with `read`, store them in its node, mark the node
     * loaded and drop the request.
     */
    method ServiceStep(read: Reader) returns (load: bool)
      requires Valid()
      requires nqueue > 0 ==> Window()[0].td < |buf| && buf[Window()[0].td].Some?
      modifies this`buf, this`nqueue, this`queue_out
      ensures Valid()
      ensures load <==> old(nqueue) > 0
      ensures !load ==> buf == old(buf) && Window() == old(Window())
      ensures load ==> var qd := old(Window())[0];
        Window() == old(Window())[1..] &&
        buf == old(buf)[qd.td := Some(Served(old(buf)[qd.td].value, qd.name, read))]
    {
      load := nqueue > 0;
      if load {
        var qd := Dequeue();
        var td := buf[qd.td].value;
        SetTile(qd.td, Served(td, qd.name, read));
      }
    }

    /** Takes the oldest request off the ring (:1373-1375). */
    method Dequeue() returns (qd: QueueDesc)
      requires QueueValid() && nqueue > 0
      modifies this`nqueue, this`queue_out
      ensures QueueValid()
      ensures qd == old(Window())[0] && Window() == old(Window())[1..]
    {
      var L := loadqueue.Length;
      qd := loadqueue[queue_out];
      RotSmall(0, queue_out, L);
      assert qd == Window()[0];
      ghost var w := Window();
      nqueue := nqueue - 1;
      ghost var o := queue_out;
      queue_out := Rot(1, queue_out, L);
      forall i | 0 <= i < nqueue ensures Window()[i] == w[1..][i] {
        RingStep(o, i, L);
      }
      assert Window() == w[1..];
      RingStep(o, nqueue, L);
      assert queue_in == Rot(nqueue, queue_out, L);
    }

    /** Frees the texture-less subtrees below the links `sub` (see `EvictSubTiles`). */
    method DeleteSubTiles(sub: Subtiles, ghost h: nat) returns (sub': Subtiles, ghost freed: set<nat>)
      requires PoolValid() && TileSound(buf, sub, h)
      modifies this`buf, this`nused
      ensures PoolValid()
      ensures freed <= Below(old(buf), sub, h) && Evictable(old(buf), freed)
      ensures buf == PruneIn(old(buf), freed, Below(old(buf), sub, h))
      ensures sub' == PruneLinks(sub, freed)
      ensures freed == EvictedBelow(old(buf), sub, h)
      ensures forall k :: 0 <= k < 4 && sub[k].Some? ==>
        (sub[k].value in freed <==> h > 0 && NullTree(old(buf), sub[k].value, h - 1))
      ensures nused == old(nused) - |freed|
      ensures TileSound(buf, sub', h) && Below(buf, sub', h) <= Below(old(buf), sub, h)
    {
      var a', n;
      a', sub', n, freed := EvictSubTiles(buf, sub, h);
      PruneOwnSlots(buf, freed, Below(buf, sub, h));
      buf := a';
      nused := nused - n;
    }

    /** Frees the texture-less part of the subtree of `s` (see `EvictTile`). */
    method DeleteTile(s: nat, ghost h: nat) returns (del: bool, ghost freed: set<nat>)
      requires PoolValid() && NodeSound(buf, s, h)
      modifies this`buf, this`nused
      ensures PoolValid()
      ensures freed <= Tree(old(buf), s, h) && Evictable(old(buf), freed)
      ensures buf == PruneIn(old(buf), freed, Tree(old(buf), s, h))
      ensures freed == Evicted(old(buf), s, h)
      ensures del <==> NullTree(old(buf), s, h)
      ensures nused == old(nused) - |freed|
      ensures !del ==> NodeSound(buf, s, h)
    {
      var a', n;
      a', del, n, freed := EvictTile(buf, s, h);
      PruneOwnSlots(buf, freed, Tree(buf, s, h));
      buf := a';
      nused := nused - n;
    }
  }
}
