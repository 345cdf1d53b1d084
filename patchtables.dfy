/**
 * The static patch tables of the tile manager: the cumulative patch count
 * `patchidx`, the number of latitude bands `NLAT` and the number of
 * longitude patches per band `NLNG` for the base levels 5 to 8.
 */
module PatchTables {

  /** `patchidx[l]`: number of base patches of all levels 1..l together. */
  const PATCHIDX: seq<int> := [0, 1, 2, 3, 5, 13, 37, 137, 501]

  const NLAT: seq<int> := [0, 1, 1, 1, 1, 1, 2, 4, 8]

  const NLNG5: seq<int> := [4]
  const NLNG6: seq<int> := [8, 4]
  const NLNG7: seq<int> := [16, 16, 12, 6]
  const NLNG8: seq<int> := [32, 32, 30, 28, 24, 18, 12, 6]

  /** `NLNG[l]` for the levels that have a band table (5..8). */
  function Nlng(l: int): (r: seq<int>)
    requires 5 <= l <= 8
    ensures |r| == NLAT[l]
    ensures forall b :: 0 <= b < |r| ==> r[b] > 0
  {
    if l == 5 then NLNG5 else if l == 6 then NLNG6 else if l == 7 then NLNG7 else NLNG8
  }

  function Sum(s: seq<int>): int
  {
    if s == [] then 0 else Sum(s[..|s| - 1]) + s[|s| - 1]
  }

  /** The number of base patches of level l alone, in one hemisphere. */
  function BandPatches(l: int): int
    requires 5 <= l <= 8
  {
    Sum(Nlng(l))
  }

  /**
   * Both hemispheres of level l together hold exactly the patches that
   * `patchidx` reserves for level l; 364 at level 8.
   */
  lemma LevelBlockSize(l: int)
    requires 5 <= l <= 8
    ensures 2 * BandPatches(l) == PATCHIDX[l] - PATCHIDX[l - 1]
    ensures l == 8 ==> PATCHIDX[l] - PATCHIDX[l - 1] == 364
  {
    var s := Nlng(l);
    var k := 0;
    while k < |s|
      invariant 0 <= k <= |s|
      invariant Sum(s[..k]) == PartialBand(l, k)
    {
      assert s[..k + 1][..k] == s[..k];
      k := k + 1;
    }
    assert s[..|s|] == s;
  }

  /** Running sums of the band tables, written out. */
  function PartialBand(l: int, k: int): int
    requires 5 <= l <= 8 && 0 <= k <= |Nlng(l)|
  {
    if k == 0 then 0 else PartialBand(l, k - 1) + Nlng(l)[k - 1]
  }

  /** `patchidx` is strictly increasing from level 0 on. */
  lemma PatchIdxIncreasing(l: int, m: int)
    requires 0 <= l < m <= 8
    ensures PATCHIDX[l] < PATCHIDX[m]
  {
  }
}
