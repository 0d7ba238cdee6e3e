/** The zoom table of volcanoes/utils/plotting.py: the map zoom level (Google tile levels 4 to 18)
    chosen for a map extent in kilometres. Extents are real numbers here, not binary floats. */
module Plotting {
  import opened Wrappers

  /** The keys of `ZOOM_LEVELS`, in table order. */
  const Extents: seq<real> :=
    [0.1, 0.5, 1.0, 2.0, 5.0, 10.0, 20.0, 50.0, 100.0, 200.0, 500.0, 1000.0, 2000.0, 5000.0, 10000.0]

  /** The zoom of each key of `ZOOM_LEVELS`, in table order. */
  const Zooms: seq<int> := [18, 17, 16, 15, 14, 13, 12, 11, 10, 9, 8, 7, 6, 5, 4]

  /** The table pairs one zoom with each extent; larger extents get strictly smaller zooms. */
  lemma TableOrdered()
    ensures |Extents| == |Zooms| == 15
    ensures forall i, j :: 0 <= i < j < |Extents| ==> Extents[i] < Extents[j] && Zooms[i] > Zooms[j]
    ensures forall i :: 0 <= i < |Zooms| ==> 4 <= Zooms[i] <= 18
  {
  }

  function Abs(x: real): real {
    if x < 0.0 then -x else x
  }

  /** `abs(x - extent_km)` for the key at index `i`. */
  function Gap(i: nat, extent: real): real
    requires i < |Extents|
  {
    Abs(Extents[i] - extent)
  }

  /** `min` over the first `n` keys by distance to `extent`: `min` keeps the first of equally
      near keys. */
  function Nearest(extent: real, n: nat): (r: nat)
    requires 0 < n <= |Extents|
    ensures r < n
    ensures forall j :: 0 <= j < n ==> Gap(r, extent) <= Gap(j, extent)
    ensures forall j :: 0 <= j < r ==> Gap(j, extent) > Gap(r, extent)
  {
    if n == 1 then 0
    else
      var best := Nearest(extent, n - 1);
      if Gap(n - 1, extent) < Gap(best, extent) then n - 1 else best
  }

  /** `get_zoom_level_basic`. */
  function ZoomLevelBasic(extent: real): (zoom: int)
    ensures 4 <= zoom <= 18
  {
    TableOrdered();
    Zooms[Nearest(extent, |Extents|)]
  }

  /** The zoom is that of a nearest key, and of the first one when two are equally near. */
  lemma ZoomLevelBasicNearest(extent: real)
    ensures exists i :: (0 <= i < |Extents| && ZoomLevelBasic(extent) == Zooms[i]
      && (forall j :: 0 <= j < |Extents| ==> Gap(i, extent) <= Gap(j, extent))
      && (forall j :: 0 <= j < i ==> Gap(j, extent) > Gap(i, extent)))
  {
    var i := Nearest(extent, |Extents|);
    assert ZoomLevelBasic(extent) == Zooms[i];
  }

  /** An extent that is a key of the table gets that key's zoom. */
  lemma ZoomLevelBasicAtKey(k: nat)
    requires k < |Extents|
    ensures ZoomLevelBasic(Extents[k]) == Zooms[k]
  {
    TableOrdered();
    var i := Nearest(Extents[k], |Extents|);
    assert Gap(k, Extents[k]) == 0.0;
    assert Gap(i, Extents[k]) == 0.0;
  }

  /** A larger extent never gets a closer zoom. */
  lemma ZoomLevelBasicMonotone(e1: real, e2: real)
    requires e1 <= e2
    ensures ZoomLevelBasic(e1) >= ZoomLevelBasic(e2)
  {
    TableOrdered();
    var i1, i2 := Nearest(e1, |Extents|), Nearest(e2, |Extents|);
    NearerStaysNearer(Extents[i2], Extents[i1], e1, e2);
    assert Gap(i1, e1) <= Gap(i2, e1) && Gap(i2, e2) <= Gap(i1, e2);
    assert i1 <= i2;
  }

  /** When `y` is strictly nearer than a smaller `x` to some point, it stays strictly nearer to
      every point above it. */
  lemma NearerStaysNearer(x: real, y: real, e1: real, e2: real)
    requires e1 <= e2
    ensures x < y && Abs(y - e1) < Abs(x - e1) ==> Abs(y - e2) < Abs(x - e2)
  {
  }

  /** The clamp branches of `get_zoom_level_interpolated`: the first zoom at or below the smallest
      key, the last at or above the largest; `None` between them, where the zoom is interpolated. */
  function ZoomLevelClamped(extent: real): (r: Option<int>)
    ensures extent <= 0.1 ==> r == Some(18)
    ensures extent >= 10000.0 ==> r == Some(4)
    ensures r.Some? ==> 4 <= r.value <= 18
    ensures r.None? <==> 0.1 < extent < 10000.0
  {
    if extent <= Extents[0] then Some(Zooms[0])
    else if extent >= Extents[|Extents| - 1] then Some(Zooms[|Zooms| - 1])
    else None
  }

  /** Where both functions decide, the clamped zoom is the basic one. */
  lemma ClampAgreesWithBasic(extent: real)
    requires ZoomLevelClamped(extent).Some?
    ensures ZoomLevelClamped(extent).value == ZoomLevelBasic(extent)
  {
    TableOrdered();
    if extent <= 0.1 {
      ZoomLevelBasicMonotone(extent, 0.1);
      ZoomLevelBasicAtKey(0);
    } else {
      ZoomLevelBasicMonotone(10000.0, extent);
      ZoomLevelBasicAtKey(14);
    }
  }
}
