/**
 * The integer side of the patch templates built by `CreateSphere` and
 * `CreateSpherePatch`: how many vertices and indices a mesh has, which
 * vertex each position of the vertex buffer holds (as a grid point; the
 * coordinates themselves are floating point and are not modelled), and the
 * index list that joins them into triangles.
 */
module Mesh {

  /** A vertex as a grid point: row and column, or one of the poles of a sphere. */
  datatype Node = Grid(row: int, col: int) | North | South

  /** The three corners of every triangle of an index list are distinct. */
  predicate Proper(s: seq<int>)
  {
    if |s| < 3 then s == []
    else s[0] != s[1] && s[1] != s[2] && s[0] != s[2] && Proper(s[3..])
  }

  lemma {:induction false} ProperConcat(s: seq<int>, t: seq<int>)
    requires Proper(s) && Proper(t)
    ensures Proper(s + t)
    decreases |s|
  {
    if |s| >= 3 {
      assert (s + t)[3..] == s[3..] + t;
      ProperConcat(s[3..], t);
    } else {
      assert s + t == t;
    }
  }

  /** Every index of s lies in [lo, hi]. */
  predicate Within(s: seq<int>, lo: int, hi: int)
  {
    forall k :: 0 <= k < |s| ==> lo <= s[k] <= hi
  }

  /** A sequence of cells, made of rows. */
  lemma WithinConcat(s: seq<int>, t: seq<int>, lo: int, hi: int)
    requires Within(s, lo, hi) && Within(t, lo, hi)
    ensures Within(s + t, lo, hi)
  {
  }

  /** Three consecutive writes `*idx++ = p; *idx++ = q; *idx++ = r;` at position n. */
  method Put3(idx: array<int>, n: nat, p: int, q: int, r: int) returns (n': nat)
    requires n + 3 <= idx.Length
    modifies idx
    ensures n' == n + 3 && idx[..n'] == old(idx[..n]) + [p, q, r]
  {
    idx[n] := p;
    idx[n + 1] := q;
    idx[n + 2] := r;
    n' := n + 3;
  }

  // ---------------------------------------------------------------------
  // CreateSphere (TileMgr.cpp:888-969)

  /** m·k as repeated addition, so that the proofs below stay linear. */
  function Times(m: nat, k: nat): nat
  {
    if m == 0 then 0 else Times(m - 1, k) + k
  }

  lemma {:induction false} TimesMul(m: nat, k: nat)
    ensures Times(m, k) == m * k
  {
    if m > 0 {
      TimesMul(m - 1, k);
      assert m * k == (m - 1) * k + k;
    }
  }

  lemma {:induction false} TimesMono(m: nat, m': nat, k: nat)
    requires m <= m'
    ensures Times(m, k) <= Times(m', k)
    decreases m'
  {
    if m < m' {
      TimesMono(m, m' - 1, k);
    }
  }

  /** The number of longitude segments of a ring, `x1`. */
  function RingSegs(nrings: nat, hemisphere: bool): nat
  {
    if hemisphere then nrings else 2 * nrings
  }

  /** `nVtx` of a sphere or hemisphere (:891). */
  function SphereVtxCount(nrings: nat, hemisphere: bool): nat
  {
    if hemisphere then nrings * (nrings + 1) + 2 else nrings * (2 * nrings + 1) + 2
  }

  /** `nIdx` of a sphere or hemisphere (:892). */
  function SphereIdxCount(nrings: nat, hemisphere: bool): nat
  {
    if hemisphere then 6 * nrings * nrings else 12 * nrings * nrings
  }

  /** Both counts in terms of the ring segments: nVtx = nrings·(x1+1) + 2 and nIdx = 6·x1·nrings. */
  lemma SphereCounts(nrings: nat, hemisphere: bool)
    ensures SphereVtxCount(nrings, hemisphere) == Times(nrings, RingSegs(nrings, hemisphere) + 1) + 2
    ensures SphereIdxCount(nrings, hemisphere) == Times(nrings, 6 * RingSegs(nrings, hemisphere))
  {
    TimesMul(nrings, RingSegs(nrings, hemisphere) + 1);
    TimesMul(nrings, 6 * RingSegs(nrings, hemisphere));
  }

  /** The first n points of ring y. */
  function RingNodes(y: int, n: nat): seq<Node>
  {
    if n == 0 then [] else RingNodes(y, n - 1) + [Grid(y, n - 1)]
  }

  /** The first m rings, x2 points each. */
  function RingsNodes(m: nat, x2: nat): seq<Node>
  {
    if m == 0 then [] else RingsNodes(m - 1, x2) + RingNodes(m - 1, x2)
  }

  /** The vertex buffer of a sphere: the rings, then the north and the south pole (:910-944). */
  function SphereNodes(nrings: nat, hemisphere: bool): seq<Node>
  {
    RingsNodes(nrings, RingSegs(nrings, hemisphere) + 1) + [North, South]
  }

  lemma {:induction false} RingNodesAt(y: int, n: nat)
    ensures |RingNodes(y, n)| == n
    ensures forall x :: 0 <= x < n ==> RingNodes(y, n)[x] == Grid(y, x)
  {
    if n > 0 {
      RingNodesAt(y, n - 1);
    }
  }

  lemma {:induction false} RingsNodesSize(m: nat, x2: nat)
    ensures |RingsNodes(m, x2)| == Times(m, x2)
  {
    if m > 0 {
      RingsNodesSize(m - 1, x2);
      RingNodesAt(m - 1, x2);
    }
  }

  lemma {:induction false} RingsNodesAt(m: nat, x2: nat, y: nat, x: nat)
    requires y < m && x < x2
    ensures |RingsNodes(m, x2)| == Times(m, x2)
    ensures Times(y, x2) + x < Times(m, x2) && RingsNodes(m, x2)[Times(y, x2) + x] == Grid(y, x)
  {
    RingsNodesSize(m, x2);
    RingsNodesSize(m - 1, x2);
    RingNodesAt(m - 1, x2);
    if y < m - 1 {
      RingsNodesAt(m - 1, x2, y, x);
    }
  }

  /**
   * The vertex loop writes exactly `nVtx` vertices, the north and the south
   * pole at the last two positions (the values of `wNorthVtx` and
   * `wSouthVtx`).
   */
  lemma SphereNodesSize(nrings: nat, hemisphere: bool)
    ensures var s, n := SphereNodes(nrings, hemisphere), SphereVtxCount(nrings, hemisphere);
      |s| == n && s[n - 2] == North && s[n - 1] == South
  {
    SphereCounts(nrings, hemisphere);
    RingsNodesSize(nrings, RingSegs(nrings, hemisphere) + 1);
  }

  /** Point x of ring y is vertex y·x2 + x. */
  lemma SphereNodeAt(nrings: nat, hemisphere: bool, y: nat, x: nat)
    requires y < nrings && x <= RingSegs(nrings, hemisphere)
    ensures |SphereNodes(nrings, hemisphere)| == SphereVtxCount(nrings, hemisphere)
    ensures var x2 := RingSegs(nrings, hemisphere) + 1;
      y * x2 + x < SphereVtxCount(nrings, hemisphere) - 2 && SphereNodes(nrings, hemisphere)[y * x2 + x] == Grid(y, x)
  {
    var x2 := RingSegs(nrings, hemisphere) + 1;
    SphereCounts(nrings, hemisphere);
    SphereNodesSize(nrings, hemisphere);
    RingsNodesAt(nrings, x2, y, x);
    TimesMul(y, x2);
  }

  /** The vertex loop of `CreateSphere` (:910-927 and :940-944). */
  method SphereVertices(nrings: nat, hemisphere: bool) returns (vtx: array<Node>)
    ensures fresh(vtx) && vtx[..] == SphereNodes(nrings, hemisphere)
  {
    var x2 := RingSegs(nrings, hemisphere) + 1;
    SphereNodesSize(nrings, hemisphere);
    SphereCounts(nrings, hemisphere);
    vtx := new Node[SphereVtxCount(nrings, hemisphere)](_ => North);
    var n: nat := 0;
    for y := 0 to nrings
      invariant n == Times(y, x2) <= vtx.Length - 2 && vtx[..n] == RingsNodes(y, x2)
    {
      TimesMono(y + 1, nrings, x2);
      n := AppendRing(vtx, n, y, x2);
    }
    vtx[n] := North;
    vtx[n + 1] := South;
    assert vtx[..] == vtx[..n] + [North, South];
  }

  /** The inner loop of the vertex loop: the points of ring y. */
  method AppendRing(vtx: array<Node>, n: nat, y: nat, x2: nat) returns (n': nat)
    requires n + x2 <= vtx.Length
    modifies vtx
    ensures n' == n + x2 && vtx[..n'] == old(vtx[..n]) + RingNodes(y, x2)
  {
    n' := n;
    for x := 0 to x2
      invariant n' == n + x && vtx[..n'] == old(vtx[..n]) + RingNodes(y, x)
    {
      vtx[n'] := Grid(y, x);
      n' := n' + 1;
    }
  }

  /** The two triangles of the quad at column x between the rows starting at o and o + x2 (:931-936). */
  function Quad(o: int, x: int, x2: int): seq<int>
  {
    [o + x, o + x + 1, o + x2 + x, o + x + 1, o + x2 + x + 1, o + x2 + x]
  }

  /** The first n quads of the band whose upper ring starts at vertex o. */
  function QuadRow(o: int, x2: int, n: nat): seq<int>
  {
    if n == 0 then [] else QuadRow(o, x2, n - 1) + Quad(o, n - 1, x2)
  }

  /** The first m bands, x1 quads each; band y starts at vertex y·x2. */
  function QuadRows(m: nat, x1: nat): seq<int>
  {
    if m == 0 then [] else QuadRows(m - 1, x1) + QuadRow(Times(m - 1, x1 + 1), x1 + 1, x1)
  }

  /** The first n triangles of the cap joining the ring starting at vertex o to the pole (:946-969). */
  function Cap(pole: int, o: int, n: nat): seq<int>
  {
    if n == 0 then [] else Cap(pole, o, n - 1) + [pole, o + n, o + n - 1]
  }

  /**
   * The index list of `CreateSphere`: the bands between the rings, then the
   * cap at the south pole on the last ring, then the cap at the north pole
   * on the first.
   */
  function SphereIndices(nrings: nat, hemisphere: bool): seq<int>
    requires nrings >= 1
  {
    var x1 := RingSegs(nrings, hemisphere);
    var x2 := x1 + 1;
    var top := Times(nrings, x2);
    QuadRows(nrings - 1, x1) + Cap(top + 1, Times(nrings - 1, x2), x1) + Cap(top, 0, x1)
  }

  lemma {:induction false} QuadRowShape(o: nat, x2: nat, n: nat)
    requires n < x2
    ensures |QuadRow(o, x2, n)| == 6 * n
    ensures Within(QuadRow(o, x2, n), o, o + x2 + n) && Proper(QuadRow(o, x2, n))
  {
    if n > 0 {
      QuadRowShape(o, x2, n - 1);
      var q := Quad(o, n - 1, x2);
      assert Proper(q) by {
        assert q[3..][3..] == [];
      }
      ProperConcat(QuadRow(o, x2, n - 1), q);
    }
  }

  lemma {:induction false} QuadRowsShape(m: nat, x1: nat)
    ensures |QuadRows(m, x1)| == Times(m, 6 * x1)
    ensures Within(QuadRows(m, x1), 0, Times(m, x1 + 1) + x1) && Proper(QuadRows(m, x1))
  {
    if m > 0 {
      var x2 := x1 + 1;
      QuadRowsShape(m - 1, x1);
      QuadRowShape(Times(m - 1, x2), x2, x1);
      TimesMono(0, m - 1, x2);
      ProperConcat(QuadRows(m - 1, x1), QuadRow(Times(m - 1, x2), x2, x1));
    }
  }

  lemma {:induction false} CapShape(pole: int, o: nat, n: nat)
    requires pole > o + n
    ensures |Cap(pole, o, n)| == 3 * n
    ensures Within(Cap(pole, o, n), o, pole) && Proper(Cap(pole, o, n))
  {
    if n > 0 {
      CapShape(pole, o, n - 1);
      var t := [pole, o + n, o + n - 1];
      assert Proper(t) by {
        assert t[3..] == [];
      }
      ProperConcat(Cap(pole, o, n - 1), t);
    }
  }

  /** The index list has exactly `nIdx` entries, 12·nrings² for a sphere and 6·nrings² for a hemisphere. */
  lemma SphereIndexCount(nrings: nat, hemisphere: bool)
    requires nrings >= 1
    ensures |SphereIndices(nrings, hemisphere)| == SphereIdxCount(nrings, hemisphere)
  {
    var x1 := RingSegs(nrings, hemisphere);
    SphereCounts(nrings, hemisphere);
    SphereIndexParts(nrings, x1);
    SphereIndicesParts(nrings, hemisphere);
  }

  /** Every index names a vertex: it is below `nVtx`. */
  lemma SphereIndexRange(nrings: nat, hemisphere: bool)
    requires nrings >= 1
    ensures Within(SphereIndices(nrings, hemisphere), 0, SphereVtxCount(nrings, hemisphere) - 1)
  {
    var x1 := RingSegs(nrings, hemisphere);
    var hi := Times(nrings, x1 + 1) + 1;
    TimesMul(nrings, x1 + 1);
    assert SphereVtxCount(nrings, hemisphere) - 1 == hi;
    SphereIndexParts(nrings, x1);
    SphereIndicesParts(nrings, hemisphere);
  }

  /** No triangle repeats a corner. */
  lemma SphereIndexProper(nrings: nat, hemisphere: bool)
    requires nrings >= 1
    ensures Proper(SphereIndices(nrings, hemisphere))
  {
    SphereIndexParts(nrings, RingSegs(nrings, hemisphere));
    SphereIndicesParts(nrings, hemisphere);
  }

  lemma SphereIndicesParts(nrings: nat, hemisphere: bool)
    requires nrings >= 1
    ensures SphereIndices(nrings, hemisphere) == SphereParts(nrings, RingSegs(nrings, hemisphere))
  {
  }

  /** `SphereIndices` for x1 segments per ring. */
  function SphereParts(nrings: nat, x1: nat): seq<int>
    requires nrings >= 1
  {
    var top := Times(nrings, x1 + 1);
    QuadRows(nrings - 1, x1) + Cap(top + 1, Times(nrings - 1, x1 + 1), x1) + Cap(top, 0, x1)
  }

  lemma SphereIndexParts(nrings: nat, x1: nat)
    requires nrings >= 1
    ensures |SphereParts(nrings, x1)| == Times(nrings, 6 * x1)
    ensures Within(SphereParts(nrings, x1), 0, Times(nrings, x1 + 1) + 1) && Proper(SphereParts(nrings, x1))
  {
    var x2 := x1 + 1;
    var top := Times(nrings, x2);
    var last := Times(nrings - 1, x2);
    var mid, south, north := QuadRows(nrings - 1, x1), Cap(top + 1, last, x1), Cap(top, 0, x1);
    assert SphereParts(nrings, x1) == mid + south + north;
    assert top == last + x2;
    PartsSize(mid, south, north, nrings, x1);
    PartsWithin(mid, south, north, nrings, x1);
    PartsProper(mid, south, north, nrings, x1);
  }

  lemma PartsSize(mid: seq<int>, south: seq<int>, north: seq<int>, nrings: nat, x1: nat)
    requires nrings >= 1 && mid == QuadRows(nrings - 1, x1)
    requires south == Cap(Times(nrings, x1 + 1) + 1, Times(nrings - 1, x1 + 1), x1) && north == Cap(Times(nrings, x1 + 1), 0, x1)
    ensures |mid + south + north| == Times(nrings, 6 * x1)
  {
    var top, last := Times(nrings, x1 + 1), Times(nrings - 1, x1 + 1);
    assert top == last + x1 + 1;
    QuadRowsShape(nrings - 1, x1);
    CapShape(top + 1, last, x1);
    CapShape(top, 0, x1);
    assert Times(nrings, 6 * x1) == Times(nrings - 1, 6 * x1) + 6 * x1;
  }

  lemma PartsWithin(mid: seq<int>, south: seq<int>, north: seq<int>, nrings: nat, x1: nat)
    requires nrings >= 1 && mid == QuadRows(nrings - 1, x1)
    requires south == Cap(Times(nrings, x1 + 1) + 1, Times(nrings - 1, x1 + 1), x1) && north == Cap(Times(nrings, x1 + 1), 0, x1)
    ensures Within(mid + south + north, 0, Times(nrings, x1 + 1) + 1)
  {
    var top, last := Times(nrings, x1 + 1), Times(nrings - 1, x1 + 1);
    assert top == last + x1 + 1;
    QuadRowsShape(nrings - 1, x1);
    CapShape(top + 1, last, x1);
    CapShape(top, 0, x1);
    WithinWiden(mid, 0, last + x1, 0, top + 1);
    WithinWiden(south, last, top + 1, 0, top + 1);
    WithinWiden(north, 0, top, 0, top + 1);
    WithinConcat(mid, south, 0, top + 1);
    WithinConcat(mid + south, north, 0, top + 1);
  }

  lemma WithinWiden(s: seq<int>, lo: int, hi: int, lo': int, hi': int)
    requires Within(s, lo, hi) && lo' <= lo && hi <= hi'
    ensures Within(s, lo', hi')
  {
  }

  lemma PartsProper(mid: seq<int>, south: seq<int>, north: seq<int>, nrings: nat, x1: nat)
    requires nrings >= 1 && mid == QuadRows(nrings - 1, x1)
    requires south == Cap(Times(nrings, x1 + 1) + 1, Times(nrings - 1, x1 + 1), x1) && north == Cap(Times(nrings, x1 + 1), 0, x1)
    ensures Proper(mid + south + north)
  {
    var top, last := Times(nrings, x1 + 1), Times(nrings - 1, x1 + 1);
    assert top == last + x1 + 1;
    QuadRowsShape(nrings - 1, x1);
    CapShape(top + 1, last, x1);
    CapShape(top, 0, x1);
    ProperConcat(mid, south);
    ProperConcat(mid + south, north);
  }

  /** One band of quads (:929-939, the inner loop); its upper ring starts at vertex o. */
  method SphereBand(idx: array<int>, n: nat, o: int, x1: nat) returns (n': nat)
    requires n + 6 * x1 <= idx.Length
    modifies idx
    ensures n' == n + 6 * x1 && idx[..n'] == old(idx[..n]) + QuadRow(o, x1 + 1, x1)
  {
    var x2 := x1 + 1;
    n' := n;
    for x := 0 to x1
      invariant n' == n + 6 * x && idx[..n'] == old(idx[..n]) + QuadRow(o, x2, x)
    {
      ghost var before := idx[..n'];
      n' := Put3(idx, n', o + x, o + x + 1, o + x2 + x);
      n' := Put3(idx, n', o + x + 1, o + x2 + x + 1, o + x2 + x);
      assert idx[..n'] == before + Quad(o, x, x2);
    }
  }

  /** One cap of triangles on the ring starting at vertex o (:946-969, one of the two loops). */
  method SphereCap(idx: array<int>, n: nat, pole: int, o: int, x1: nat) returns (n': nat)
    requires n + 3 * x1 <= idx.Length
    modifies idx
    ensures n' == n + 3 * x1 && idx[..n'] == old(idx[..n]) + Cap(pole, o, x1)
  {
    n' := n;
    for x := 0 to x1
      invariant n' == n + 3 * x && idx[..n'] == old(idx[..n]) + Cap(pole, o, x)
    {
      n' := Put3(idx, n', pole, o + (x + 1), o + x);
    }
  }

  /** The loop over the bands of `CreateSphere` (:929-939); ring y starts at vertex y·x2. */
  method SphereBands(idx: array<int>, nrings: nat, x1: nat) returns (n: nat)
    requires 1 <= nrings && Times(nrings - 1, 6 * x1) <= idx.Length
    modifies idx
    ensures n == Times(nrings - 1, 6 * x1) && idx[..n] == QuadRows(nrings - 1, x1)
  {
    var x2 := x1 + 1;
    n := 0;
    var y := 0;
    TimesMono(0, nrings - 1, 6 * x1);
    while y < nrings - 1
      invariant 0 <= y <= nrings - 1 && n == Times(y, 6 * x1) <= Times(nrings - 1, 6 * x1)
      invariant idx[..n] == QuadRows(y, x1)
    {
      TimesMono(y + 1, nrings - 1, 6 * x1);
      TimesMul(y, x2);
      n := SphereBand(idx, n, y * x2, x1);
      y := y + 1;
    }
  }

  /** The index loops of `CreateSphere` (:929-969). */
  method SphereIndexList(nrings: nat, hemisphere: bool) returns (idx: array<int>)
    requires nrings >= 1
    ensures fresh(idx) && idx[..] == SphereIndices(nrings, hemisphere)
  {
    var x1 := RingSegs(nrings, hemisphere);
    var x2 := x1 + 1;
    SphereCounts(nrings, hemisphere);
    SphereIndicesParts(nrings, hemisphere);
    idx := new int[SphereIdxCount(nrings, hemisphere)];
    assert idx.Length == Times(nrings - 1, 6 * x1) + 6 * x1;
    var n := SphereBands(idx, nrings, x1);
    var y := nrings - 1;
    TimesMul(y, x2);
    TimesMul(nrings, x2);
    var north, south := nrings * x2, nrings * x2 + 1;
    n := SphereCap(idx, n, south, y * x2, x1);
    n := SphereCap(idx, n, north, 0, x1);
    assert idx[..] == idx[..n];
  }

  /** `CreateSphere` (:888-969): the vertex buffer, then the index list. */
  method CreateSphere(nrings: nat, hemisphere: bool) returns (vtx: array<Node>, idx: array<int>)
    requires nrings >= 1
    ensures fresh(vtx) && vtx[..] == SphereNodes(nrings, hemisphere)
    ensures fresh(idx) && idx[..] == SphereIndices(nrings, hemisphere)
  {
    vtx := SphereVertices(nrings, hemisphere);
    idx := SphereIndexList(nrings, hemisphere);
  }

  // ---------------------------------------------------------------------
  // CreateSpherePatch (TileMgr.cpp:995-1103)

  /** `bseg` after the adjustment at :1014: the last band, or a negative `bseg`, gets (nlat - ilat)·res segments. */
  function PatchBseg(nlat: int, ilat: int, res: int, bseg: int): int
  {
    if bseg < 0 || ilat == nlat - 1 then (nlat - ilat) * res else bseg
  }

  /** `nVtx` of a patch (:1017-1018). */
  function PatchVtxCount(res: nat, bseg: nat, reduce: bool): int
  {
    var n := (bseg + 1) * (res + 1);
    if reduce then n - ((res + 1) * res) / 2 else n
  }

  /** `nIdx` of a patch (:1084). */
  function PatchIdxCount(res: nat, bseg: nat, reduce: bool): int
  {
    (if reduce then res * (2 * bseg - res) else 2 * res * bseg) * 3
  }

  /** `nseg`, the number of segments of strip i: one fewer per strip when reduced. */
  function Segs(bseg: nat, reduce: bool, i: nat): int
  {
    if reduce then bseg - i else bseg
  }

  /** The first vertex of strip i (`nofs0` of :1087-1099). */
  function RowStart(bseg: nat, reduce: bool, i: nat): int
  {
    if i == 0 then 0 else RowStart(bseg, reduce, i - 1) + Segs(bseg, reduce, i - 1) + 1
  }

  /** The vertices of the first m strips, strip i having nseg + 1 points (:1042-1081). */
  function PatchNodes(bseg: nat, reduce: bool, m: nat): seq<Node>
    requires reduce ==> m <= bseg + 1
  {
    if m == 0 then [] else PatchNodes(bseg, reduce, m - 1) + RingNodes(m - 1, Segs(bseg, reduce, m - 1) + 1)
  }

  /** 0 + 1 + ... + (m - 1). */
  function TriBelow(m: nat): nat
  {
    if m == 0 then 0 else TriBelow(m - 1) + (m - 1)
  }

  lemma {:induction false} TriBelowFormula(m: nat)
    ensures 2 * TriBelow(m) == m * (m - 1)
  {
    if m > 0 {
      TriBelowFormula(m - 1);
      assert m * (m - 1) == (m - 1) * (m - 2) + 2 * (m - 1);
    }
  }

  lemma {:induction false} RowStartForm(bseg: nat, reduce: bool, i: nat)
    ensures RowStart(bseg, reduce, i) == Times(i, bseg + 1) - (if reduce then TriBelow(i) else 0)
  {
    if i > 0 {
      RowStartForm(bseg, reduce, i - 1);
    }
  }

  lemma {:induction false} PatchNodesSize(bseg: nat, reduce: bool, m: nat)
    requires reduce ==> m <= bseg + 1
    ensures |PatchNodes(bseg, reduce, m)| == RowStart(bseg, reduce, m)
  {
    if m > 0 {
      PatchNodesSize(bseg, reduce, m - 1);
      RingNodesAt(m - 1, Segs(bseg, reduce, m - 1) + 1);
    }
  }

  /**
   * The vertex loop writes exactly `nVtx` vertices: (bseg+1)(res+1), less
   * res(res+1)/2 when reduced.
   */
  lemma PatchVtxFormula(res: nat, bseg: nat, reduce: bool)
    requires reduce ==> res <= bseg
    ensures |PatchNodes(bseg, reduce, res + 1)| == RowStart(bseg, reduce, res + 1) == PatchVtxCount(res, bseg, reduce)
  {
    PatchNodesSize(bseg, reduce, res + 1);
    RowStartForm(bseg, reduce, res + 1);
    TimesMul(res + 1, bseg + 1);
    TriBelowFormula(res + 1);
    assert (res + 1) * (bseg + 1) == (bseg + 1) * (res + 1);
  }

  /** Point j of strip i is vertex `nofs0 + j`. */
  lemma {:induction false} PatchNodeAt(bseg: nat, reduce: bool, m: nat, i: nat, j: nat)
    requires (reduce ==> m <= bseg + 1) && i < m && j <= Segs(bseg, reduce, i)
    ensures |PatchNodes(bseg, reduce, m)| == RowStart(bseg, reduce, m)
    ensures 0 <= RowStart(bseg, reduce, i)
    ensures RowStart(bseg, reduce, i) + j < RowStart(bseg, reduce, m)
    ensures PatchNodes(bseg, reduce, m)[RowStart(bseg, reduce, i) + j] == Grid(i, j)
  {
    PatchNodesSize(bseg, reduce, m);
    PatchNodesSize(bseg, reduce, m - 1);
    RingNodesAt(m - 1, Segs(bseg, reduce, m - 1) + 1);
    RowStartMono(bseg, reduce, i);
    if i < m - 1 {
      PatchNodeAt(bseg, reduce, m - 1, i, j);
    }
  }

  /** The triangles of segment j of a strip whose rows start at o0 and o1 (:1090-1098). */
  function StripStep(o0: int, o1: int, nseg: int, reduce: bool, j: int): seq<int>
  {
    [o0 + j, o1 + j, o0 + j + 1] + (if reduce && j == nseg - 1 then [] else [o0 + j + 1, o1 + j, o1 + j + 1])
  }

  /** The first n segments of a strip. */
  function Strip(o0: int, o1: int, nseg: int, reduce: bool, n: nat): seq<int>
  {
    if n == 0 then [] else Strip(o0, o1, nseg, reduce, n - 1) + StripStep(o0, o1, nseg, reduce, n - 1)
  }

  /** The index list of the first m strips. */
  function Strips(bseg: nat, reduce: bool, m: nat): seq<int>
    requires reduce ==> m <= bseg
  {
    if m == 0 then []
    else
      var nseg := Segs(bseg, reduce, m - 1);
      Strips(bseg, reduce, m - 1) + Strip(RowStart(bseg, reduce, m - 1), RowStart(bseg, reduce, m), nseg, reduce, nseg)
  }

  /** The index list of `CreateSpherePatch` before the winding is reversed. */
  function PatchIndices(res: nat, bseg: nat, reduce: bool): seq<int>
    requires reduce ==> res <= bseg
  {
    Strips(bseg, reduce, res)
  }

  lemma StripStepShape(o0: int, nseg: nat, reduce: bool, j: nat)
    requires j < nseg
    ensures var o1 := o0 + nseg + 1; var t := StripStep(o0, o1, nseg, reduce, j); var last := reduce && j == nseg - 1;
      |t| == (if last then 3 else 6) && Within(t, o0 + j, o1 + j + (if last then 0 else 1)) && Proper(t)
  {
    var o1 := o0 + nseg + 1;
    var t := StripStep(o0, o1, nseg, reduce, j);
    if reduce && j == nseg - 1 {
      assert t[3..] == [];
    } else {
      assert t[3..][3..] == [];
    }
  }

  lemma {:induction false} StripShape(o0: int, nseg: nat, reduce: bool, n: nat)
    requires 1 <= nseg && n <= nseg
    ensures var o1 := o0 + nseg + 1; var s := Strip(o0, o1, nseg, reduce, n);
      |s| == 6 * n - (if reduce && n == nseg then 3 else 0) &&
      Within(s, o0, o1 + n - (if reduce && n == nseg then 1 else 0)) && Proper(s)
  {
    var o1 := o0 + nseg + 1;
    if n > 0 {
      StripShape(o0, nseg, reduce, n - 1);
      var prev, t := Strip(o0, o1, nseg, reduce, n - 1), StripStep(o0, o1, nseg, reduce, n - 1);
      var hi := o1 + n - (if reduce && n == nseg then 1 else 0);
      StripStepShape(o0, nseg, reduce, n - 1);
      ProperConcat(prev, t);
      WithinWiden(prev, o0, o1 + n - 1, o0, hi);
      WithinWiden(t, o0 + n - 1, hi, o0, hi);
      WithinConcat(prev, t, o0, hi);
    }
  }

  lemma {:induction false} StripsSize(bseg: nat, reduce: bool, m: nat)
    requires reduce ==> m <= bseg
    ensures |Strips(bseg, reduce, m)| == Times(m, 6 * bseg) - (if reduce then 6 * TriBelow(m) + 3 * m else 0)
  {
    if m > 0 {
      StripsSize(bseg, reduce, m - 1);
      var nseg := Segs(bseg, reduce, m - 1);
      StripSize(RowStart(bseg, reduce, m - 1), RowStart(bseg, reduce, m), nseg, reduce, nseg);
      assert Times(m, 6 * bseg) == Times(m - 1, 6 * bseg) + 6 * bseg;
      assert TriBelow(m) == TriBelow(m - 1) + (m - 1);
    }
  }

  lemma {:induction false} StripsShape(bseg: nat, reduce: bool, m: nat)
    requires reduce ==> m <= bseg
    ensures Within(Strips(bseg, reduce, m), 0, RowStart(bseg, reduce, m) + Segs(bseg, reduce, m)) && Proper(Strips(bseg, reduce, m))
  {
    if m > 0 {
      StripsShape(bseg, reduce, m - 1);
      var nseg := Segs(bseg, reduce, m - 1);
      var o0 := RowStart(bseg, reduce, m - 1);
      var prev, s := Strips(bseg, reduce, m - 1), Strip(o0, RowStart(bseg, reduce, m), nseg, reduce, nseg);
      var hi := RowStart(bseg, reduce, m) + Segs(bseg, reduce, m);
      if nseg >= 1 {
        StripShape(o0, nseg, reduce, nseg);
      } else {
        assert s == [];
      }
      RowStartMono(bseg, reduce, m - 1);
      assert Strips(bseg, reduce, m) == prev + s;
      WithinWiden(prev, 0, o0 + nseg, 0, hi);
      WithinWiden(s, o0, hi, 0, hi);
      WithinConcat(prev, s, 0, hi);
      ProperConcat(prev, s);
    }
  }

  lemma RowStartMono(bseg: nat, reduce: bool, m: nat)
    requires reduce ==> m <= bseg
    ensures 0 <= RowStart(bseg, reduce, m)
  {
    RowStartForm(bseg, reduce, m);
    TimesMul(m, bseg + 1);
    TriBelowFormula(m);
  }

  /**
   * The index list has exactly `nIdx` entries, 3·2·res·bseg, or
   * 3·res·(2·bseg − res) when reduced.
   */
  lemma PatchIndexCount(res: nat, bseg: nat, reduce: bool)
    requires reduce ==> res <= bseg
    ensures |PatchIndices(res, bseg, reduce)| == PatchIdxCount(res, bseg, reduce)
  {
    StripsSize(bseg, reduce, res);
    PatchIdxCountForm(res, bseg, reduce);
  }

  lemma PatchIdxCountForm(res: nat, bseg: nat, reduce: bool)
    ensures PatchIdxCount(res, bseg, reduce) == Times(res, 6 * bseg) - (if reduce then 6 * TriBelow(res) + 3 * res else 0)
  {
    TimesMul(res, 6 * bseg);
    TriBelowFormula(res);
    assert res * (6 * bseg) == 6 * (res * bseg);
    assert res * (res - 1) == res * res - res;
    assert res * (2 * bseg - res) == 2 * (res * bseg) - res * res;
    assert 2 * res * bseg == 2 * (res * bseg);
  }

  /** Every index names a vertex (it is below `nVtx`), and no triangle repeats a corner. */
  lemma PatchIndexRange(res: nat, bseg: nat, reduce: bool)
    requires reduce ==> res <= bseg
    ensures Within(PatchIndices(res, bseg, reduce), 0, PatchVtxCount(res, bseg, reduce) - 1)
    ensures Proper(PatchIndices(res, bseg, reduce))
  {
    StripsShape(bseg, reduce, res);
    PatchVtxFormula(res, bseg, reduce);
  }

  lemma {:induction false} RowStartLe(bseg: nat, reduce: bool, i: nat, m: nat)
    requires i <= m && (reduce ==> m <= bseg + 1)
    ensures RowStart(bseg, reduce, i) <= RowStart(bseg, reduce, m)
    decreases m
  {
    if i < m {
      RowStartLe(bseg, reduce, i, m - 1);
    }
  }

  /** The vertex loop of `CreateSpherePatch` (:1042-1081), one grid point per vertex. */
  method PatchVertices(res: nat, bseg: nat, reduce: bool) returns (vtx: array<Node>)
    requires reduce ==> res <= bseg
    ensures fresh(vtx) && vtx[..] == PatchNodes(bseg, reduce, res + 1)
  {
    PatchVtxFormula(res, bseg, reduce);
    vtx := new Node[PatchVtxCount(res, bseg, reduce)](_ => North);
    var n: nat := 0;
    for i := 0 to res + 1
      invariant n == RowStart(bseg, reduce, i) && n <= vtx.Length
      invariant vtx[..n] == PatchNodes(bseg, reduce, i)
    {
      var nseg := if reduce then bseg - i else bseg;
      RowStartLe(bseg, reduce, i + 1, res + 1);
      n := AppendRing(vtx, n, i, nseg + 1);
    }
    assert vtx[..] == vtx[..n];
  }

  lemma {:induction false} StripSize(o0: int, o1: int, nseg: nat, reduce: bool, n: nat)
    requires n <= nseg
    ensures |Strip(o0, o1, nseg, reduce, n)| == 6 * n - (if reduce && 0 < n == nseg then 3 else 0)
  {
    if n > 0 {
      StripSize(o0, o1, nseg, reduce, n - 1);
      var t := StripStep(o0, o1, nseg, reduce, n - 1);
      assert |t| == if reduce && 0 < n == nseg then 3 else 6;
    }
  }

  /** Segment j of a strip: one triangle, and a second unless it closes a reduced strip (:1090-1098). */
  method StepFill(idx: array<int>, n: nat, o0: int, o1: int, nseg: int, reduce: bool, j: int) returns (n': nat)
    requires n + |StripStep(o0, o1, nseg, reduce, j)| <= idx.Length
    modifies idx
    ensures n' == n + |StripStep(o0, o1, nseg, reduce, j)|
    ensures idx[..n'] == old(idx[..n]) + StripStep(o0, o1, nseg, reduce, j)
  {
    n' := Put3(idx, n, o0 + j, o1 + j, o0 + j + 1);
    if !(reduce && j == nseg - 1) {
      n' := Put3(idx, n', o0 + j + 1, o1 + j, o1 + j + 1);
    }
  }

  /** One strip of the index loop of `CreateSpherePatch` (:1088-1098), leaving it after a reduced strip's last triangle. */
  method StripFill(idx: array<int>, n: nat, o0: int, nseg: nat, reduce: bool) returns (n': nat)
    requires n + |Strip(o0, o0 + nseg + 1, nseg, reduce, nseg)| <= idx.Length
    modifies idx
    ensures n' == n + |Strip(o0, o0 + nseg + 1, nseg, reduce, nseg)|
    ensures idx[..n'] == old(idx[..n]) + Strip(o0, o0 + nseg + 1, nseg, reduce, nseg)
  {
    var o1 := o0 + nseg + 1;
    n' := n;
    StripSize(o0, o1, nseg, reduce, nseg);
    var j := 0;
    while j < nseg
      invariant 0 <= j <= nseg && (reduce ==> j < nseg || nseg == 0)
      invariant n' == n + |Strip(o0, o1, nseg, reduce, j)| && n' <= idx.Length
      invariant idx[..n'] == old(idx[..n]) + Strip(o0, o1, nseg, reduce, j)
    {
      ghost var before := idx[..n'];
      StripSize(o0, o1, nseg, reduce, j + 1);
      StripNext(old(idx[..n]), before, o0, o1, nseg, reduce, j);
      n' := StepFill(idx, n', o0, o1, nseg, reduce, j);
      if reduce && j == nseg - 1 {
        return;
      }
      j := j + 1;
    }
  }

  lemma StripNext(s: seq<int>, before: seq<int>, o0: int, o1: int, nseg: nat, reduce: bool, j: nat)
    requires j < nseg && before == s + Strip(o0, o1, nseg, reduce, j)
    ensures |Strip(o0, o1, nseg, reduce, j + 1)| == |Strip(o0, o1, nseg, reduce, j)| + |StripStep(o0, o1, nseg, reduce, j)|
    ensures before + StripStep(o0, o1, nseg, reduce, j) == s + Strip(o0, o1, nseg, reduce, j + 1)
  {
    assert Strip(o0, o1, nseg, reduce, j + 1) == Strip(o0, o1, nseg, reduce, j) + StripStep(o0, o1, nseg, reduce, j);
  }

  lemma StripsNext(bseg: nat, reduce: bool, i: nat, before: seq<int>)
    requires (reduce ==> i < bseg) && before == Strips(bseg, reduce, i)
    ensures var nseg, o0 := Segs(bseg, reduce, i), RowStart(bseg, reduce, i);
      RowStart(bseg, reduce, i + 1) == o0 + nseg + 1 &&
      before + Strip(o0, o0 + nseg + 1, nseg, reduce, nseg) == Strips(bseg, reduce, i + 1)
  {
  }

  lemma {:induction false} StripsPrefix(bseg: nat, reduce: bool, i: nat, m: nat)
    requires i <= m && (reduce ==> m <= bseg)
    ensures |Strips(bseg, reduce, i)| <= |Strips(bseg, reduce, m)|
    decreases m
  {
    if i < m {
      StripsPrefix(bseg, reduce, i, m - 1);
    }
  }

  /** The index loop of `CreateSpherePatch` (:1084-1100). */
  method PatchIndexList(res: nat, bseg: nat, reduce: bool) returns (idx: array<int>)
    requires reduce ==> res <= bseg
    ensures fresh(idx) && idx[..] == PatchIndices(res, bseg, reduce)
  {
    PatchIndexCount(res, bseg, reduce);
    idx := new int[PatchIdxCount(res, bseg, reduce)];
    var n: nat := 0;
    var nofs0 := 0;
    for i := 0 to res
      invariant nofs0 == RowStart(bseg, reduce, i)
      invariant n == |Strips(bseg, reduce, i)| && n <= idx.Length
      invariant idx[..n] == Strips(bseg, reduce, i)
    {
      var nseg := if reduce then bseg - i else bseg;
      var nofs1 := nofs0 + nseg + 1;
      StripsPrefix(bseg, reduce, i + 1, res);
      StripsNext(bseg, reduce, i, idx[..n]);
      n := StripFill(idx, n, nofs0, nseg, reduce);
      nofs0 := nofs1;
    }
    assert idx[..] == idx[..n];
  }

  /** The index list with the corner order of its first t triangles reversed. */
  function FlipTris(s: seq<int>, t: nat): (r: seq<int>)
    requires 3 * t <= |s|
    ensures |r| == |s|
  {
    if t == 0 then s
    else
      var i := 3 * (t - 1);
      FlipTris(s, t - 1)[i + 1 := s[i + 2]][i + 2 := s[i + 1]]
  }

  /**
   * Triangle q < t has its last two corners swapped; every other entry is
   * as it was.
   */
  lemma {:induction false} FlipTrisAt(s: seq<int>, t: nat, q: nat)
    requires 3 * t <= |s| && 3 * q + 2 < |s|
    ensures var r := FlipTris(s, t);
      r[3 * q] == s[3 * q] &&
      (if q < t then r[3 * q + 1] == s[3 * q + 2] && r[3 * q + 2] == s[3 * q + 1]
       else r[3 * q + 1] == s[3 * q + 1] && r[3 * q + 2] == s[3 * q + 2])
  {
    if t > 0 {
      FlipTrisAt(s, t - 1, q);
    }
  }

  /** How many iterations the swap loop of :1101-1103 makes: i = 0, 3, 6, ... below nIdx/3. */
  function AsWrittenFlips(nidx: nat): (r: nat)
    ensures 3 * r <= nidx
  {
    (nidx / 3 + 2) / 3
  }

  /**
   * The swap loop of :1101-1103, as written: it reverses the triangles whose
   * first index lies below nIdx/3, which is the first third of them.
   */
  method FlipWinding(idx: array<int>)
    modifies idx
    ensures idx[..] == FlipTris(old(idx[..]), AsWrittenFlips(idx.Length))
  {
    ghost var s := idx[..];
    var i := 0;
    ghost var q := 0;
    while i < idx.Length / 3
      invariant i == 3 * q && (q == 0 || 3 * (q - 1) < idx.Length / 3) && 3 * q <= idx.Length
      invariant idx[..] == FlipTris(s, q)
    {
      FlipTrisAt(s, q, q);
      idx[i + 1], idx[i + 2] := idx[i + 2], idx[i + 1];
      i := i + 3;
      q := q + 1;
    }
  }

  /**
   * With two or more triangles the swap loop leaves the last one as it was:
   * an inside-viewed patch keeps part of its outward winding.
   */
  lemma AsWrittenFlipsFewer(nidx: nat)
    requires nidx >= 6
    ensures AsWrittenFlips(nidx) < nidx / 3
  {
  }

  /** The smallest patch shows it: of its two triangles only the first is reversed. */
  lemma AsWrittenKeepsSecondTriangle()
    ensures PatchIndices(1, 1, false) == [0, 2, 1, 1, 2, 3]
    ensures FlipTris(PatchIndices(1, 1, false), AsWrittenFlips(6)) == [0, 1, 2, 1, 2, 3]
  {
    assert Strip(0, 2, 1, false, 1) == [0, 2, 1, 1, 2, 3];
  }

  /** Triangle q of r is triangle q of s with its last two corners swapped. */
  ghost predicate TriReversed(r: seq<int>, s: seq<int>, q: nat)
    requires |r| == |s| && 3 * q + 2 < |s|
  {
    r[3 * q] == s[3 * q] && r[3 * q + 1] == s[3 * q + 2] && r[3 * q + 2] == s[3 * q + 1]
  }

  /** Flipping every triangle reverses the winding of each of them. */
  lemma FlipTrisReverses(s: seq<int>)
    requires |s| % 3 == 0
    ensures forall q: nat :: q < |s| / 3 ==> TriReversed(FlipTris(s, |s| / 3), s, q)
  {
    forall q: nat | q < |s| / 3 ensures TriReversed(FlipTris(s, |s| / 3), s, q) {
      FlipTrisAt(s, |s| / 3, q);
    }
  }

  /** Flipping the same triangles twice gives the list back. */
  lemma {:induction false} FlipTrisInvolution(s: seq<int>, t: nat)
    requires 3 * t <= |s|
    ensures FlipTris(FlipTris(s, t), t) == s
  {
    var r := FlipTris(FlipTris(s, t), t);
    forall x | 0 <= x < |s| ensures r[x] == s[x] {
      var q := x / 3;
      if 3 * q + 2 < |s| {
        FlipTrisAt(s, t, q);
        FlipTrisAt(FlipTris(s, t), t, q);
      } else {
        FlipTrisBeyond(s, t, x);
        FlipTrisBeyond(FlipTris(s, t), t, x);
      }
    }
  }

  /** Entries past the last whole triangle are never touched. */
  lemma {:induction false} FlipTrisBeyond(s: seq<int>, t: nat, x: nat)
    requires 3 * t <= |s| && x < |s| && x >= 3 * t
    ensures FlipTris(s, t)[x] == s[x]
  {
    if t > 0 {
      FlipTrisBeyond(s, t - 1, x);
    }
  }

  /**
   * The swap loop of :1101-1103 as evidently intended, stepping through
   * the whole list (`i < nIdx`): every triangle is reversed.
   */
  method FlipAllWinding(idx: array<int>)
    requires idx.Length % 3 == 0
    modifies idx
    ensures idx[..] == FlipTris(old(idx[..]), idx.Length / 3)
  {
    ghost var s := idx[..];
    var i := 0;
    ghost var q := 0;
    while i < idx.Length
      invariant i == 3 * q && 3 * q <= idx.Length
      invariant idx[..] == FlipTris(s, q)
    {
      FlipTrisAt(s, q, q);
      idx[i + 1], idx[i + 2] := idx[i + 2], idx[i + 1];
      i := i + 3;
      q := q + 1;
    }
  }

  /** On the smallest patch the intended loop reverses both triangles. */
  lemma CorrectedFlipsBothTriangles()
    ensures FlipTris(PatchIndices(1, 1, false), 2) == [0, 1, 2, 1, 3, 2]
  {
    AsWrittenKeepsSecondTriangle();
  }

  /**
   * `CreateSpherePatch` (:995-1103): the `bseg` adjustment, the vertex
   * buffer, the index list, and for a patch seen from inside the swap loop.
   */
  method CreateSpherePatch(nlat: int, ilat: int, res: nat, bseg: int, reduce: bool, outside: bool)
    returns (vtx: array<Node>, idx: array<int>)
    requires 0 <= ilat < nlat
    requires reduce ==> res <= PatchBseg(nlat, ilat, res, bseg)
    ensures var b := PatchBseg(nlat, ilat, res, bseg);
      b >= 0 && fresh(vtx) && vtx[..] == PatchNodes(b, reduce, res + 1) &&
      fresh(idx) && idx.Length == |PatchIndices(res, b, reduce)| &&
      idx[..] == if outside then PatchIndices(res, b, reduce) else FlipTris(PatchIndices(res, b, reduce), AsWrittenFlips(idx.Length))
  {
    var b := bseg;
    if bseg < 0 || ilat == nlat - 1 {
      b := (nlat - ilat) * res;
    }
    vtx := PatchVertices(res, b, reduce);
    idx := PatchIndexList(res, b, reduce);
    if !outside {
      FlipWinding(idx);
    }
  }
}
