// The area check that follows setCoords in src/traces/funnelarea/plot.js (kept
// there as a comment): polygonArea's shoelace loop, the loop that collects the
// area of every visible slice and their total, and what those areas are once
// setCoords has run, namely proportional to the values.

module FunnelArea {
  import opened FunnelGeometry
  import opened FunnelLayout

  /** Every visible entry carries corners, as it does once setCoords has run. */
  predicate HasCorners(cd: seq<CalcPoint>) {
    forall j :: 0 <= j < |cd| && !cd[j].hidden ==> cd[j].geom.Some?
  }

  /** The polygon area of [TR, TL, BL, BR] of each visible entry at or after i, in cd order. */
  function SliceAreas(cd: seq<CalcPoint>, i: nat): (areas: seq<real>)
    requires HasCorners(cd)
    decreases |cd| - i
  {
    if i >= |cd| then []
    else (if cd[i].hidden then [] else [PolygonArea(Outline(cd[i].geom.value))]) + SliceAreas(cd, i + 1)
  }

  /** The share v / vTotal of each visible entry at or after i, in cd order. */
  function Shares(cd: seq<CalcPoint>, vTotal: real, i: nat): (shares: seq<real>)
    requires vTotal != 0.0
    decreases |cd| - i
  {
    if i >= |cd| then []
    else (if cd[i].hidden then [] else [cd[i].v / vTotal]) + Shares(cd, vTotal, i + 1)
  }

  function Sum(xs: seq<real>): (total: real) {
    if xs == [] then 0.0 else Sum(xs[..|xs| - 1]) + xs[|xs| - 1]
  }

  /** polygonArea: the shoelace loop over the closed polygon through points. */
  method PolygonAreaOf(points: seq<Point>) returns (area: real)
    ensures area == PolygonArea(points)
  {
    var s1, s2 := 0.0, 0.0;
    var n := |points|;
    var i := 0;
    while i < n
      invariant 0 <= i <= n
      invariant s1 == ShoelaceSums(points, i).0 && s2 == ShoelaceSums(points, i).1
    {
      var k := (i + 1) % n;
      var x0, y0 := points[i].x, points[i].y;
      var x1, y1 := points[k].x, points[k].y;
      s1 := s1 + x0 * y1;
      s2 := s2 + x1 * y0;
      i := i + 1;
    }
    area := 0.5 * Abs(s1 - s2);
  }

  /**
   * The area check: the polygon area of [TR, TL, BL, BR] for every visible
   * entry, in cd order, and the sum of those areas.
   */
  method AreaCheck(cd: seq<CalcPoint>) returns (areas: seq<real>, totalArea: real)
    requires HasCorners(cd)
    ensures areas == SliceAreas(cd, 0)
    ensures totalArea == Sum(areas)
  {
    areas := [];
    totalArea := 0.0;
    var i := 0;
    while i < |cd|
      invariant 0 <= i <= |cd|
      invariant areas + SliceAreas(cd, i) == SliceAreas(cd, 0)
      invariant totalArea == Sum(areas)
    {
      var cdi := cd[i];
      if !cdi.hidden {
        var area := PolygonAreaOf(Outline(cdi.geom.value));
        assert SliceAreas(cd, i) == [area] + SliceAreas(cd, i + 1);
        assert (areas + [area]) + SliceAreas(cd, i + 1) == areas + SliceAreas(cd, i);
        assert (areas + [area])[..|areas|] == areas;
        areas := areas + [area];
        totalArea := totalArea + area;
      } else {
        assert SliceAreas(cd, i) == SliceAreas(cd, i + 1);
      }
      i := i + 1;
    }
  }

  /** setCoords gives corners to every visible entry. */
  lemma {:induction false} LayoutHasCorners(cd: seq<CalcPoint>, p: Params, sqrt: real -> real)
    requires IsSqrt(sqrt) && ValidInput(cd, p)
    ensures HasCorners(Layout(cd, p, sqrt))
  {
    forall j | 0 <= j < |cd| && !Layout(cd, p, sqrt)[j].hidden
      ensures Layout(cd, p, sqrt)[j].geom.Some?
    {
      LayoutEntries(cd, p, sqrt, j);
    }
  }

  /**
   * After setCoords, the areas the check collects are the shares v / vTotal
   * of the visible entries, each multiplied by the same factor scaleX * |scaleY|.
   */
  lemma {:induction false} LayoutAreas(cd: seq<CalcPoint>, p: Params, sqrt: real -> real)
    requires IsSqrt(sqrt) && ValidInput(cd, p)
    ensures HasCorners(Layout(cd, p, sqrt))
    ensures Scaling(SliceAreas(Layout(cd, p, sqrt), 0), Shares(cd, p.vTotal, 0), AreaScale(cd, p, sqrt))
  {
    LayoutSlicesProportional(cd, p, sqrt);
    ProportionalVisible(Layout(cd, p, sqrt), cd, p.vTotal, AreaScale(cd, p, sqrt), 0);
  }

  /**
   * Entry lists out and cd with the same hidden flags, where every visible
   * entry of out has corners and the area of its slice is c times the share
   * v / vTotal of the entry of cd.
   */
  predicate Proportional(out: seq<CalcPoint>, cd: seq<CalcPoint>, vTotal: real, c: real) {
    && |out| == |cd|
    && HasCorners(out)
    && (forall j :: 0 <= j < |cd| ==> out[j].hidden == cd[j].hidden)
    && (forall j :: 0 <= j < |cd| && !cd[j].hidden ==>
          vTotal != 0.0 && PolygonArea(Outline(out[j].geom.value)) == Mul(c, cd[j].v / vTotal))
  }

  /** xs is ys with every element multiplied by c. */
  predicate Scaling(xs: seq<real>, ys: seq<real>, c: real) {
    |xs| == |ys| && forall k :: 0 <= k < |xs| ==> xs[k] == Mul(c, ys[k])
  }

  /** LayoutSliceArea for every visible entry at once. */
  lemma {:induction false} LayoutSlicesProportional(cd: seq<CalcPoint>, p: Params, sqrt: real -> real)
    requires IsSqrt(sqrt) && ValidInput(cd, p)
    ensures Proportional(Layout(cd, p, sqrt), cd, p.vTotal, AreaScale(cd, p, sqrt))
  {
    LayoutHasCorners(cd, p, sqrt);
    LayoutSameFlags(cd, p, sqrt);
    LayoutAllSlices(cd, p, sqrt);
  }

  /** setCoords keeps every hidden flag. */
  lemma {:induction false} LayoutSameFlags(cd: seq<CalcPoint>, p: Params, sqrt: real -> real)
    requires IsSqrt(sqrt) && ValidInput(cd, p)
    ensures forall j :: 0 <= j < |cd| ==> Layout(cd, p, sqrt)[j].hidden == cd[j].hidden
  {
    forall j | 0 <= j < |cd|
      ensures Layout(cd, p, sqrt)[j].hidden == cd[j].hidden
    {
      LayoutEntries(cd, p, sqrt, j);
    }
  }

  lemma {:induction false} LayoutAllSlices(cd: seq<CalcPoint>, p: Params, sqrt: real -> real)
    requires IsSqrt(sqrt) && ValidInput(cd, p)
    ensures forall j :: 0 <= j < |cd| && !cd[j].hidden ==>
              Layout(cd, p, sqrt)[j].geom.Some? &&
              PolygonArea(Outline(Layout(cd, p, sqrt)[j].geom.value))
              == Mul(AreaScale(cd, p, sqrt), cd[j].v / p.vTotal)
  {
    forall j | 0 <= j < |cd| && !cd[j].hidden
      ensures Layout(cd, p, sqrt)[j].geom.Some?
      ensures PolygonArea(Outline(Layout(cd, p, sqrt)[j].geom.value))
              == Mul(AreaScale(cd, p, sqrt), cd[j].v / p.vTotal)
    {
      LayoutSliceArea(cd, p, sqrt, j);
    }
  }

  /** Slices proportional entry by entry give proportional lists of areas and shares. */
  lemma {:induction false} ProportionalVisible(out: seq<CalcPoint>, cd: seq<CalcPoint>, vTotal: real, c: real, i: nat)
    requires Proportional(out, cd, vTotal, c) && vTotal != 0.0
    ensures Scaling(SliceAreas(out, i), Shares(cd, vTotal, i), c)
    decreases |cd| - i
  {
    if i < |cd| {
      ProportionalVisible(out, cd, vTotal, c, i + 1);
      var rest, restShares := SliceAreas(out, i + 1), Shares(cd, vTotal, i + 1);
      if cd[i].hidden {
        assert SliceAreas(out, i) == rest && Shares(cd, vTotal, i) == restShares;
      } else {
        var area := PolygonArea(Outline(out[i].geom.value));
        assert SliceAreas(out, i) == [area] + rest;
        assert Shares(cd, vTotal, i) == [cd[i].v / vTotal] + restShares;
        ScalingCons(area, cd[i].v / vTotal, rest, restShares, c);
      }
    }
  }

  lemma {:induction false} ScalingCons(x: real, y: real, xs: seq<real>, ys: seq<real>, c: real)
    requires x == Mul(c, y) && Scaling(xs, ys, c)
    ensures Scaling([x] + xs, [y] + ys, c)
  {
    forall k | 0 <= k < |xs| + 1
      ensures ([x] + xs)[k] == Mul(c, ([y] + ys)[k])
    {
      if k > 0 {
        assert ([x] + xs)[k] == xs[k - 1] && ([y] + ys)[k] == ys[k - 1];
      }
    }
  }

  /** Multiplying every element by c multiplies the sum by c. */
  lemma {:induction false} SumScaledBy(xs: seq<real>, ys: seq<real>, c: real)
    requires Scaling(xs, ys, c)
    ensures Sum(xs) == Mul(c, Sum(ys))
    decreases |xs|
  {
    if xs != [] {
      var n := |xs| - 1;
      assert Scaling(xs[..n], ys[..n], c) by {
        forall k | 0 <= k < n
          ensures xs[..n][k] == Mul(c, ys[..n][k])
        {
          assert xs[..n][k] == xs[k] && ys[..n][k] == ys[k];
        }
      }
      SumScaledBy(xs[..n], ys[..n], c);
      assert Sum(xs) == Sum(xs[..n]) + xs[n] && Sum(ys) == Sum(ys[..n]) + ys[n];
      assert xs[n] == Mul(c, ys[n]);
      assert Mul(c, Sum(ys[..n])) + Mul(c, ys[n]) == Mul(c, Sum(ys[..n]) + ys[n]);
    }
  }

  /**
   * xs[k] is to the sum of xs as ys[k] is to the sum of ys (cross-multiplied,
   * so that it means something when a sum is zero).
   */
  predicate SameShare(xs: seq<real>, ys: seq<real>, k: nat) {
    k < |xs| && k < |ys| && xs[k] * Sum(ys) == ys[k] * Sum(xs)
  }

  /** In two proportional lists each element is to its list's sum as its partner is to the other's. */
  lemma {:induction false} ProportionalShares(xs: seq<real>, ys: seq<real>, c: real, k: nat)
    requires Scaling(xs, ys, c) && k < |ys|
    ensures SameShare(xs, ys, k)
  {
    SumScaledBy(xs, ys, c);
    CrossMultiply(xs[k], ys[k], c, Sum(xs), Sum(ys));
  }

  lemma {:induction false} CrossMultiply(x: real, y: real, c: real, sx: real, sy: real)
    requires x == Mul(c, y) && sx == Mul(c, sy)
    ensures x * sy == y * sx
  {
    assert x * sy == c * (y * sy);
  }

  /**
   * Area shares match value shares: after setCoords, the area of the k-th
   * visible slice is to the total area as its value is to the total of the
   * visible values (stated without dividing, so that it also holds when the
   * areas are all zero).
   */
  lemma {:induction false} LayoutAreaShares(cd: seq<CalcPoint>, p: Params, sqrt: real -> real, k: nat)
    requires IsSqrt(sqrt) && ValidInput(cd, p)
    requires k < |Shares(cd, p.vTotal, 0)|
    ensures HasCorners(Layout(cd, p, sqrt))
    ensures SameShare(SliceAreas(Layout(cd, p, sqrt), 0), Shares(cd, p.vTotal, 0), k)
  {
    LayoutAreas(cd, p, sqrt);
    ProportionalShares(SliceAreas(Layout(cd, p, sqrt), 0), Shares(cd, p.vTotal, 0),
                       AreaScale(cd, p, sqrt), k);
  }
}
