// setCoords of src/traces/funnelarea/plot.js as it runs, step by step, over
// the array of calc entries. Each phase is proved to compute the function of
// FunnelLayout that specifies it, and setCoords as a whole to leave the array
// holding Layout of its old contents.

module FunnelPlot {
  import opened FunnelGeometry
  import opened FunnelLayout

  // ---------------------------------------------------------------------------
  // setCoords

  /**
   * setCoords: gives every visible entry of cd its corners TL, TR, BL, BR and
   * pxmid, and leaves hidden entries alone. An empty cd is returned untouched.
   */
  method SetCoords(cd: array<CalcPoint>, p: Params, sqrt: real -> real)
    requires IsSqrt(sqrt)
    requires cd.Length > 0 ==> ValidInput(cd[..], p)
    modifies cd
    ensures cd[..] == Layout(old(cd[..]), p, sqrt)
  {
    if cd.Length == 0 {
      return;
    }
    var c0 := cd[..];
    RawShape(c0, p, sqrt);
    CenteredShape(c0, p, sqrt);
    var allPoints := AccumulatePoints(c0, p, sqrt);
    var minY, maxY := YRange(allPoints);
    allPoints := CenterPoints(allPoints, (maxY + minY) / 2.0);
    assert allPoints == CenteredPoints(c0, p, sqrt);

    var lastX := allPoints[|allPoints| - 1].x;
    var scaleX := p.r / lastX;
    ScaleYValue(c0, p, sqrt, minY, maxY);
    var scaleY := HeightScale(p, minY, maxY);
    assert scaleX == ScaleX(c0, p, sqrt);
    allPoints := ScalePoints(allPoints, scaleX, scaleY);
    assert allPoints == FinalPoints(c0, p, sqrt);

    AssignCorners(cd, allPoints);
    assert cd[..] == Layout(c0, p, sqrt);
  }

  /**
   * The seed and the accumulation loop of setCoords: one boundary point
   * [sqrt(sumSteps), -sqrt(sumSteps)] for the seed and one after each visible
   * entry, visited from last to first.
   */
  method AccumulatePoints(cd: seq<CalcPoint>, p: Params, sqrt: real -> real) returns (allPoints: seq<Point>)
    requires -1.0 < p.baseratio < 1.0 && 0.0 < p.vTotal
    ensures allPoints == RawPoints(cd, p, sqrt)
  {
    var totalValues := p.vTotal;
    var sumSteps := SeedSteps(p);
    ghost var s0 := sumSteps;
    allPoints := [Point(sqrt(sumSteps), -sqrt(sumSteps))];
    AccumulateStart(cd, totalValues, s0, sqrt);

    var i: int := |cd| - 1;
    while i > -1
      invariant -1 <= i < |cd|
      invariant Accumulated(cd, totalValues, s0, sqrt, i + 1, allPoints, sumSteps)
      decreases i
    {
      if !cd[i].hidden {
        ghost var points0, sum0 := allPoints, sumSteps;
        sumSteps := sumSteps + cd[i].v / totalValues;
        allPoints := allPoints + [Point(sqrt(sumSteps), -sqrt(sumSteps))];
        AccumulateVisible(cd, totalValues, s0, sqrt, i, points0, sum0, sumSteps);
      } else {
        AccumulateHidden(cd, totalValues, s0, sqrt, i, allPoints, sumSteps);
      }
      i := i - 1;
    }
  }

  /**
   * After visiting the entries from i on, allPoints holds the boundary points
   * of the cumulative fractions so far and sumSteps the last of them.
   */
  ghost predicate Accumulated(cd: seq<CalcPoint>, vTotal: real, s0: real, sqrt: real -> real, i: nat,
                              allPoints: seq<Point>, sumSteps: real)
    requires vTotal != 0.0
  {
    var fr := Cumulative(s0, Steps(cd, i, vTotal));
    allPoints == Boundary(sqrt, fr) && sumSteps == fr[|fr| - 1]
  }

  lemma {:induction false} AccumulateStart(cd: seq<CalcPoint>, vTotal: real, s0: real, sqrt: real -> real)
    requires vTotal != 0.0
    ensures Accumulated(cd, vTotal, s0, sqrt, |cd|, [Point(sqrt(s0), -sqrt(s0))], s0)
  {
    assert Steps(cd, |cd|, vTotal) == [];
    assert Boundary(sqrt, [s0]) == [Point(sqrt(s0), -sqrt(s0))];
  }

  /** A turn of the accumulation loop at a visible entry i keeps Accumulated. */
  lemma {:induction false} AccumulateVisible(cd: seq<CalcPoint>, vTotal: real, s0: real, sqrt: real -> real, i: nat,
                                             allPoints: seq<Point>, sumSteps: real, s: real)
    requires vTotal != 0.0 && i < |cd| && !cd[i].hidden
    requires Accumulated(cd, vTotal, s0, sqrt, i + 1, allPoints, sumSteps)
    requires s == sumSteps + cd[i].v / vTotal
    ensures Accumulated(cd, vTotal, s0, sqrt, i, allPoints + [Point(sqrt(s), -sqrt(s))], s)
  {
    var st := Steps(cd, i + 1, vTotal);
    var fr := Cumulative(s0, st);
    var step := cd[i].v / vTotal;
    assert Steps(cd, i, vTotal) == st + [step];
    CumulativeAppend(s0, st, step);
    assert Cumulative(s0, Steps(cd, i, vTotal)) == fr + [s];
    BoundaryAppend(sqrt, fr, s);
  }

  /** A turn of the accumulation loop at a hidden entry i keeps Accumulated. */
  lemma {:induction false} AccumulateHidden(cd: seq<CalcPoint>, vTotal: real, s0: real, sqrt: real -> real, i: nat,
                                            allPoints: seq<Point>, sumSteps: real)
    requires vTotal != 0.0 && i < |cd| && cd[i].hidden
    requires Accumulated(cd, vTotal, s0, sqrt, i + 1, allPoints, sumSteps)
    ensures Accumulated(cd, vTotal, s0, sqrt, i, allPoints, sumSteps)
  {
    assert Steps(cd, i, vTotal) == Steps(cd, i + 1, vTotal);
  }

  /**
   * The first value of sumSteps, v0 / v1 with v0 = v1 * h^2 / (1 - h^2): v1
   * cancels, leaving h^2 / (1 - h^2), which is never negative.
   */
  method SeedSteps(p: Params) returns (sumSteps: real)
    requires -1.0 < p.baseratio < 1.0 && 0.0 < p.vTotal
    ensures sumSteps == Seed(p)
    ensures var h2 := p.baseratio * p.baseratio;
            sumSteps == h2 / (1.0 - h2) && 0.0 <= sumSteps
  {
    var h := p.baseratio;
    SquareBelowOne(h);
    var h2 := h * h;
    var v1 := p.vTotal;
    var v0 := v1 * h2 / (1.0 - h2);
    sumSteps := v0 / v1;
    SeedValue(p);
  }

  lemma {:induction false} CumulativeAppend(s0: real, steps: seq<real>, x: real)
    ensures var fr := Cumulative(s0, steps);
            Cumulative(s0, steps + [x]) == fr + [fr[|fr| - 1] + x]
  {
    assert (steps + [x])[..|steps|] == steps;
  }

  lemma {:induction false} BoundaryAppend(sqrt: real -> real, fr: seq<real>, s: real)
    ensures Boundary(sqrt, fr + [s]) == Boundary(sqrt, fr) + [Point(sqrt(s), -sqrt(s))]
  {
    assert forall k :: 0 <= k < |fr| ==> (fr + [s])[k] == fr[k];
  }

  /**
   * The extremes loop of setCoords: the least and greatest y of the points.
   * The running extremes start at the first point's y rather than at
   * +Infinity and -Infinity.
   */
  method YRange(pts: seq<Point>) returns (minY: real, maxY: real)
    requires |pts| > 0
    ensures minY == MinY(pts) && maxY == MaxY(pts)
  {
    minY, maxY := pts[0].y, pts[0].y;
    var i := 1;
    while i < |pts|
      invariant 1 <= i <= |pts|
      invariant minY == MinY(pts[..i]) && maxY == MaxY(pts[..i])
    {
      assert pts[..i + 1][..i] == pts[..i];
      minY := Min(minY, pts[i].y);
      maxY := Max(maxY, pts[i].y);
      i := i + 1;
    }
    assert pts[..i] == pts;
  }

  /** The centring loop: every y moved by -c, in place. */
  method CenterPoints(pts: seq<Point>, c: real) returns (allPoints: seq<Point>)
    ensures allPoints == Shifted(pts, c)
  {
    allPoints := pts;
    var i := 0;
    while i < |allPoints|
      invariant 0 <= i <= |allPoints| == |pts|
      invariant forall k :: 0 <= k < i ==> allPoints[k] == Point(pts[k].x, pts[k].y - c)
      invariant forall k :: i <= k < |pts| ==> allPoints[k] == pts[k]
    {
      allPoints := allPoints[i := allPoints[i].(y := allPoints[i].y - c)];
      i := i + 1;
    }
  }

  /** The scaling loop: every x multiplied by sx and every y by sy, in place. */
  method ScalePoints(pts: seq<Point>, sx: real, sy: real) returns (allPoints: seq<Point>)
    ensures allPoints == Scaled(pts, sx, sy)
  {
    allPoints := pts;
    var i := 0;
    while i < |allPoints|
      invariant 0 <= i <= |allPoints| == |pts|
      invariant forall k :: 0 <= k < i ==> allPoints[k] == Point(pts[k].x * sx, pts[k].y * sy)
      invariant forall k :: i <= k < |pts| ==> allPoints[k] == pts[k]
    {
      allPoints := allPoints[i := Point(allPoints[i].x * sx, allPoints[i].y * sy)];
      i := i + 1;
    }
    assert forall k :: 0 <= k < |pts| ==> allPoints[k] == Scaled(pts, sx, sy)[k];
  }

  /**
   * The corner loop of setCoords: walking the entries from last to first, the
   * n-th visible one gets boundary point n and its mirror as TR and TL, the
   * previous top corners (at first, boundary point 0 and its mirror) as BR
   * and BL, and the midpoint of TR and BR as pxmid.
   */
  method AssignCorners(cd: array<CalcPoint>, allPoints: seq<Point>)
    requires |allPoints| == |Visible(cd[..], 0)| + 1
    modifies cd
    ensures forall j :: 0 <= j < cd.Length ==> cd[j] == Placed(old(cd[..]), allPoints, j)
  {
    ghost var c0 := cd[..];
    var p0 := allPoints[0];
    var prevLeft := Point(-p0.x, p0.y);
    var prevRight := Point(p0.x, p0.y);

    var n := 0;
    var i: int := cd.Length - 1;
    while i > -1
      invariant -1 <= i < cd.Length
      invariant n == |Visible(c0, i + 1)| < |allPoints|
      invariant prevRight == allPoints[n] && prevLeft == Mirror(allPoints[n])
      invariant forall j :: i < j < cd.Length ==> cd[j] == Placed(c0, allPoints, j)
      invariant forall j :: 0 <= j <= i ==> cd[j] == c0[j]
      decreases i
    {
      var cdi := cd[i];
      if !cdi.hidden {
        VisiblePrefix(c0, 0, i);
        n := n + 1;
        var x := allPoints[n].x;
        var y := allPoints[n].y;
        var tl := Point(-x, y);
        var tr := Point(x, y);
        cd[i] := cdi.(geom := Some(Corners(tl, tr, prevLeft, prevRight, Between(tr, prevRight))));
        prevLeft := tl;
        prevRight := tr;
      }
      i := i - 1;
    }
  }
}
