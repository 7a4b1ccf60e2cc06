// The funnel-area layout computed by setCoords (src/traces/funnelarea/plot.js),
// stated as functions of its input, and the properties of that layout.
//
// setCoords walks the calc entries from last to first, skipping hidden ones,
// and accumulates the cumulative fraction
//     s_0 = h^2 / (1 - h^2),   s_(k+1) = s_k + v_k / vTotal
// pushing the boundary point (sqrt(s_k), -sqrt(s_k)) for each. It then centres
// the points vertically, scales x and y separately, and gives the k-th visible
// entry it visits the slice between boundary points k and k + 1.

module FunnelLayout {
  import opened FunnelGeometry

  datatype Option<T> = None | Some(value: T)

  /** The fields setCoords writes onto a visible calc entry. */
  datatype Corners = Corners(TL: Point, TR: Point, BL: Point, BR: Point, pxmid: Point)

  /** A calc entry cd[i]: its value, its hidden flag and the corners it has been given. */
  datatype CalcPoint = CalcPoint(v: real, hidden: bool, geom: Option<Corners>)

  /**
   * What setCoords reads besides the entries themselves: trace.baseratio and
   * trace.heightratio, and cd[0].vTotal and cd[0].r (the radius set by the pie sizing step).
   */
  datatype Params = Params(baseratio: real, heightratio: real, vTotal: real, r: real)

  /**
   * The inputs on which setCoords computes finite numbers and the layout has
   * the shape proved below:
   *  - h^2 < 1, that is -1 < baseratio < 1: h^2 == 1 divides by zero in v0,
   *    and h^2 > 1 makes the seed negative, whose square root is NaN;
   *  - vTotal > 0: vTotal == 0 divides by zero in sumSteps and in every step;
   *  - r > 0: the radius the sizing step hands over, which keeps scaleX and
   *    every x non-negative (no division depends on it);
   *  - visible values non-negative: a negative one makes a step negative, so
   *    sumSteps can decrease or fall below zero (no division depends on it);
   *  - some visible value positive: otherwise all boundary points share one y
   *    and scaleY divides by maxY - minY == 0.
   */
  predicate ValidInput(cd: seq<CalcPoint>, p: Params) {
    && -1.0 < p.baseratio < 1.0
    && 0.0 < p.vTotal
    && 0.0 < p.r
    && (forall j :: 0 <= j < |cd| && !cd[j].hidden ==> 0.0 <= cd[j].v)
    && (exists j :: 0 <= j < |cd| && !cd[j].hidden && 0.0 < cd[j].v)
  }

  // ---------------------------------------------------------------------------
  // The visiting order

  /** Indices of the visible entries at or after i, in the order setCoords visits them. */
  function Visible(cd: seq<CalcPoint>, i: nat): (order: seq<nat>)
    decreases |cd| - i
  {
    if i >= |cd| then [] else Visible(cd, i + 1) + (if cd[i].hidden then [] else [i])
  }

  /** The position of entry j in the visiting order: the number of visible entries after it. */
  function Rank(cd: seq<CalcPoint>, j: nat): (rank: nat) {
    |Visible(cd, j + 1)|
  }

  lemma {:induction false} VisibleMembers(cd: seq<CalcPoint>, i: nat)
    ensures forall j :: j in Visible(cd, i) <==> i <= j < |cd| && !cd[j].hidden
    decreases |cd| - i
  {
    if i < |cd| {
      VisibleMembers(cd, i + 1);
    }
  }

  /** The visiting order runs from the last entry to the first. */
  lemma {:induction false} VisibleDescending(cd: seq<CalcPoint>, i: nat)
    ensures forall a, b :: 0 <= a < b < |Visible(cd, i)| ==> Visible(cd, i)[a] > Visible(cd, i)[b]
    decreases |cd| - i
  {
    if i < |cd| {
      var o' := Visible(cd, i + 1);
      var o := Visible(cd, i);
      VisibleDescending(cd, i + 1);
      VisibleMembers(cd, i + 1);
      forall a, b | 0 <= a < b < |o|
        ensures o[a] > o[b]
      {
        assert o[a] == o'[a] && o'[a] in o';
        if b < |o'| {
          assert o[b] == o'[b];
          assert o'[a] > o'[b];
        } else {
          assert o[b] == i;
        }
      }
    }
  }

  /** Starting further on only drops entries from the end of the visiting order. */
  lemma {:induction false} VisiblePrefix(cd: seq<CalcPoint>, i: nat, m: nat)
    requires i <= m
    ensures Visible(cd, m) <= Visible(cd, i)
    decreases m - i
  {
    if i < m {
      VisiblePrefix(cd, i + 1, m);
      if i < |cd| {
        assert Visible(cd, i + 1) <= Visible(cd, i);
      }
    }
  }

  /** A visible entry j sits at position Rank(cd, j) of every visiting order that reaches it. */
  lemma {:induction false} RankPosition(cd: seq<CalcPoint>, i: nat, j: nat)
    requires i <= j < |cd| && !cd[j].hidden
    ensures Rank(cd, j) < |Visible(cd, i)|
    ensures Visible(cd, i)[Rank(cd, j)] == j
  {
    VisiblePrefix(cd, i, j);
    assert Visible(cd, j) == Visible(cd, j + 1) + [j];
  }

  /** Hidden entries leave the visiting order as it is. */
  lemma {:induction false} VisibleSkipsHidden(cd: seq<CalcPoint>, a: nat, b: nat)
    requires a <= b <= |cd|
    requires forall j :: a <= j < b ==> cd[j].hidden
    ensures Visible(cd, a) == Visible(cd, b)
    decreases b - a
  {
    if a < b {
      VisibleSkipsHidden(cd, a + 1, b);
    }
  }

  // ---------------------------------------------------------------------------
  // Cumulative fractions and boundary points

  /** The steps v / vTotal added to sumSteps, in visiting order. */
  function Steps(cd: seq<CalcPoint>, i: nat, vTotal: real): (st: seq<real>)
    requires vTotal != 0.0
    ensures |st| == |Visible(cd, i)|
    decreases |cd| - i
  {
    if i >= |cd| then []
    else Steps(cd, i + 1, vTotal) + (if cd[i].hidden then [] else [cd[i].v / vTotal])
  }

  lemma {:induction false} StepsAt(cd: seq<CalcPoint>, i: nat, vTotal: real, k: nat)
    requires vTotal != 0.0
    requires k < |Visible(cd, i)|
    ensures Visible(cd, i)[k] < |cd|
    ensures Steps(cd, i, vTotal)[k] == cd[Visible(cd, i)[k]].v / vTotal
    decreases |cd| - i
  {
    if i < |cd| && k < |Visible(cd, i + 1)| {
      StepsAt(cd, i + 1, vTotal, k);
    }
  }

  /** The successive values of sumSteps: the seed, then one more after each step. */
  function Cumulative(s0: real, steps: seq<real>): (fr: seq<real>)
    ensures |fr| == |steps| + 1
    decreases |steps|
  {
    if steps == [] then [s0]
    else
      var fr := Cumulative(s0, steps[..|steps| - 1]);
      fr + [fr[|fr| - 1] + steps[|steps| - 1]]
  }

  /** Each cumulative fraction is the previous one plus the step taken in between. */
  lemma {:induction false} CumulativeStep(s0: real, steps: seq<real>, k: nat)
    requires k < |steps|
    ensures Cumulative(s0, steps)[0] == s0
    ensures Cumulative(s0, steps)[k + 1] == Cumulative(s0, steps)[k] + steps[k]
    decreases |steps|
  {
    var init := steps[..|steps| - 1];
    if k < |steps| - 1 {
      CumulativeStep(s0, init, k);
    } else if |init| > 0 {
      CumulativeStep(s0, init, 0);
    }
  }

  /** With non-negative steps, sumSteps never decreases and never falls below its seed. */
  lemma {:induction false} CumulativeMonotone(s0: real, steps: seq<real>, a: nat, b: nat)
    requires forall k :: 0 <= k < |steps| ==> 0.0 <= steps[k]
    requires a <= b <= |steps|
    ensures s0 <= Cumulative(s0, steps)[a] <= Cumulative(s0, steps)[b]
    decreases b
  {
    if a < b {
      CumulativeStep(s0, steps, b - 1);
      CumulativeMonotone(s0, steps, a, b - 1);
    } else if 0 < a {
      CumulativeStep(s0, steps, a - 1);
      CumulativeMonotone(s0, steps, a - 1, a - 1);
    } else if 0 < |steps| {
      CumulativeStep(s0, steps, 0);
    }
  }

  /** The boundary point [sqrt(s), -sqrt(s)] of each cumulative fraction s. */
  function Boundary(sqrt: real -> real, fr: seq<real>): (pts: seq<Point>)
    ensures |pts| == |fr|
  {
    seq(|fr|, k requires 0 <= k < |fr| => Point(sqrt(fr[k]), -sqrt(fr[k])))
  }

  /** The first value of sumSteps: v0 / v1 with v0 = v1 * h^2 / (1 - h^2). */
  function Seed(p: Params): (s0: real)
    requires -1.0 < p.baseratio < 1.0 && 0.0 < p.vTotal
  {
    var h := p.baseratio;
    SquareBelowOne(h);
    var h2 := h * h;
    var v0 := p.vTotal * h2 / (1.0 - h2);
    v0 / p.vTotal
  }

  lemma {:induction false} SquareBelowOne(h: real)
    requires -1.0 < h < 1.0
    ensures 0.0 <= h * h < 1.0
  {
    if 0.0 <= h {
      assert h * h <= h * 1.0;
    } else {
      assert h * h == (-h) * (-h) <= (-h) * 1.0;
    }
  }

  /** The algebra of the seed: v1 cancels out of (v1 * h2 / (1 - h2)) / v1. */
  lemma {:induction false} SeedAlgebra(v1: real, h2: real)
    requires 0.0 < v1 && 0.0 <= h2 < 1.0
    ensures (v1 * h2 / (1.0 - h2)) / v1 == h2 / (1.0 - h2)
    ensures 0.0 <= h2 / (1.0 - h2)
  {
    var w := h2 / (1.0 - h2);
    assert w * (1.0 - h2) == h2;
    assert v1 * h2 == (v1 * w) * (1.0 - h2);
    assert v1 * h2 / (1.0 - h2) == v1 * w;
    QuotientNonNegative(h2, 1.0 - h2);
  }

  lemma {:induction false} QuotientNonNegative(a: real, d: real)
    requires 0.0 <= a && 0.0 < d
    ensures 0.0 <= a / d
  {
  }

  /** The seed is h^2 / (1 - h^2), the share of the virtual cone tip: never negative. */
  lemma {:induction false} SeedValue(p: Params)
    requires -1.0 < p.baseratio < 1.0 && 0.0 < p.vTotal
    ensures var h2 := p.baseratio * p.baseratio;
            0.0 <= h2 < 1.0 && Seed(p) == h2 / (1.0 - h2) && 0.0 <= Seed(p)
  {
    SquareBelowOne(p.baseratio);
    SeedAlgebra(p.vTotal, p.baseratio * p.baseratio);
  }

  /** The values sumSteps takes, one per boundary point. */
  function Fractions(cd: seq<CalcPoint>, p: Params): (fr: seq<real>)
    requires -1.0 < p.baseratio < 1.0 && 0.0 < p.vTotal
    ensures |fr| == |Visible(cd, 0)| + 1
  {
    Cumulative(Seed(p), Steps(cd, 0, p.vTotal))
  }

  /** allPoints as the accumulation loop leaves it. */
  function RawPoints(cd: seq<CalcPoint>, p: Params, sqrt: real -> real): (pts: seq<Point>)
    requires -1.0 < p.baseratio < 1.0 && 0.0 < p.vTotal
    ensures |pts| == |Visible(cd, 0)| + 1
  {
    Boundary(sqrt, Fractions(cd, p))
  }

  // ---------------------------------------------------------------------------
  // Extremes, centring and scaling

  function Min(a: real, b: real): (m: real) { if a <= b then a else b }
  function Max(a: real, b: real): (m: real) { if a <= b then b else a }

  /** The smallest y of a non-empty point list. */
  function MinY(pts: seq<Point>): (m: real)
    requires |pts| > 0
  {
    if |pts| == 1 then pts[0].y else Min(MinY(pts[..|pts| - 1]), pts[|pts| - 1].y)
  }

  /** The largest y of a non-empty point list. */
  function MaxY(pts: seq<Point>): (m: real)
    requires |pts| > 0
  {
    if |pts| == 1 then pts[0].y else Max(MaxY(pts[..|pts| - 1]), pts[|pts| - 1].y)
  }

  /** MinY and MaxY are the least and greatest y of the list, and both are attained. */
  lemma {:induction false} ExtremesBound(pts: seq<Point>)
    requires |pts| > 0
    ensures forall k :: 0 <= k < |pts| ==> MinY(pts) <= pts[k].y <= MaxY(pts)
    ensures exists k :: 0 <= k < |pts| && pts[k].y == MinY(pts)
    ensures exists k :: 0 <= k < |pts| && pts[k].y == MaxY(pts)
  {
    if |pts| > 1 {
      var init := pts[..|pts| - 1];
      var n := |pts| - 1;
      ExtremesBound(init);
      assert forall k :: 0 <= k < |init| ==> init[k] == pts[k];
      var lo :| 0 <= lo < |init| && init[lo].y == MinY(init);
      var hi :| 0 <= hi < |init| && init[hi].y == MaxY(init);
      if MinY(pts) == pts[n].y {
        assert pts[n].y == MinY(pts);
      } else {
        assert pts[lo].y == MinY(pts);
      }
      if MaxY(pts) == pts[n].y {
        assert pts[n].y == MaxY(pts);
      } else {
        assert pts[hi].y == MaxY(pts);
      }
    } else {
      assert pts[0].y == MinY(pts) && pts[0].y == MaxY(pts);
    }
  }

  /** Every point moved up by c (the centring step). */
  function Shifted(pts: seq<Point>, c: real): (r: seq<Point>)
    ensures |r| == |pts|
  {
    seq(|pts|, k requires 0 <= k < |pts| => Point(pts[k].x, pts[k].y - c))
  }

  /** Every point's x multiplied by sx and its y by sy (the scaling step). */
  function Scaled(pts: seq<Point>, sx: real, sy: real): (r: seq<Point>)
    ensures |r| == |pts|
  {
    seq(|pts|, k requires 0 <= k < |pts| => Point(pts[k].x * sx, pts[k].y * sy))
  }

  /**
   * A map of the points that keeps the order of their y-values takes a point
   * of least y to one of least y and a point of greatest y to one of greatest y.
   */
  lemma {:induction false} OrderPreservingExtremes(pts: seq<Point>, out: seq<Point>)
    requires |pts| == |out| > 0
    requires forall a, b :: 0 <= a < |pts| && 0 <= b < |pts| && pts[a].y <= pts[b].y ==> out[a].y <= out[b].y
    ensures forall k :: 0 <= k < |pts| && pts[k].y == MinY(pts) ==> out[k].y == MinY(out)
    ensures forall k :: 0 <= k < |pts| && pts[k].y == MaxY(pts) ==> out[k].y == MaxY(out)
  {
    ExtremesBound(pts);
    ExtremesBound(out);
  }

  lemma {:induction false} ShiftedExtremes(pts: seq<Point>, c: real)
    requires |pts| > 0
    ensures MinY(Shifted(pts, c)) == MinY(pts) - c
    ensures MaxY(Shifted(pts, c)) == MaxY(pts) - c
  {
    ExtremesBound(pts);
    OrderPreservingExtremes(pts, Shifted(pts, c));
  }

  /** Centring about the midpoint of the extremes leaves extremes that sum to zero. */
  lemma {:induction false} CenteredBalanced(pts: seq<Point>)
    requires |pts| > 0
    ensures var c := Shifted(pts, (MaxY(pts) + MinY(pts)) / 2.0);
            MinY(c) + MaxY(c) == 0.0
  {
    ShiftedExtremes(pts, (MaxY(pts) + MinY(pts)) / 2.0);
  }

  lemma {:induction false} MulMonotone(a: real, b: real, c: real)
    requires a <= b && 0.0 <= c
    ensures a * c <= b * c
  {
  }

  lemma {:induction false} MulAntitone(a: real, b: real, c: real)
    requires a <= b && c < 0.0
    ensures b * c <= a * c
  {
  }

  /** Scaling by sx >= 0 keeps non-negative x-values that never decrease along the list. */
  lemma {:induction false} ScaledXOrder(pts: seq<Point>, sx: real, sy: real)
    requires 0.0 <= sx
    requires forall a, b :: 0 <= a <= b < |pts| ==> 0.0 <= pts[a].x <= pts[b].x
    ensures var out := Scaled(pts, sx, sy);
            forall a, b :: 0 <= a <= b < |out| ==> 0.0 <= out[a].x <= out[b].x
  {
    var out := Scaled(pts, sx, sy);
    forall a, b | 0 <= a <= b < |out|
      ensures 0.0 <= out[a].x <= out[b].x
    {
      MulMonotone(0.0, pts[a].x, sx);
      MulMonotone(pts[a].x, pts[b].x, sx);
    }
  }

  /**
   * Scaling keeps y-values that never increase along the list so when sy >= 0;
   * a negative sy turns them round.
   */
  lemma {:induction false} ScaledYOrder(pts: seq<Point>, sx: real, sy: real)
    requires forall a, b :: 0 <= a <= b < |pts| ==> pts[b].y <= pts[a].y
    ensures var out := Scaled(pts, sx, sy);
            0.0 <= sy ==> forall a, b :: 0 <= a <= b < |out| ==> out[b].y <= out[a].y
    ensures var out := Scaled(pts, sx, sy);
            sy < 0.0 ==> forall a, b :: 0 <= a <= b < |out| ==> out[a].y <= out[b].y
  {
    var out := Scaled(pts, sx, sy);
    if 0.0 <= sy {
      forall a, b | 0 <= a <= b < |out|
        ensures out[b].y <= out[a].y
      {
        MulMonotone(pts[b].y, pts[a].y, sy);
      }
    } else {
      forall a, b | 0 <= a <= b < |out|
        ensures out[a].y <= out[b].y
      {
        MulAntitone(pts[b].y, pts[a].y, sy);
      }
    }
  }

  /** In a list whose y never increases, the extremes are the first and last y. */
  lemma {:induction false} DescendingExtremes(pts: seq<Point>)
    requires |pts| > 0
    requires forall a, b :: 0 <= a <= b < |pts| ==> pts[b].y <= pts[a].y
    ensures MinY(pts) == pts[|pts| - 1].y
    ensures MaxY(pts) == pts[0].y
  {
    if |pts| > 1 {
      var init := pts[..|pts| - 1];
      DescendingExtremes(init);
    }
  }

  /** In a list whose y never decreases, the extremes are the last and first y. */
  lemma {:induction false} AscendingExtremes(pts: seq<Point>)
    requires |pts| > 0
    requires forall a, b :: 0 <= a <= b < |pts| ==> pts[a].y <= pts[b].y
    ensures MinY(pts) == pts[0].y
    ensures MaxY(pts) == pts[|pts| - 1].y
  {
    if |pts| > 1 {
      var init := pts[..|pts| - 1];
      AscendingExtremes(init);
    }
  }

  /** With non-negative visible values every step is non-negative. */
  lemma {:induction false} StepsNonNegative(cd: seq<CalcPoint>, p: Params)
    requires ValidInput(cd, p)
    ensures forall k :: 0 <= k < |Steps(cd, 0, p.vTotal)| ==> 0.0 <= Steps(cd, 0, p.vTotal)[k]
  {
    var st := Steps(cd, 0, p.vTotal);
    forall k | 0 <= k < |st|
      ensures 0.0 <= st[k]
    {
      StepsAt(cd, 0, p.vTotal, k);
      VisibleMembers(cd, 0);
      assert Visible(cd, 0)[k] in Visible(cd, 0);
    }
  }

  /** The cumulative fractions never decrease and stay at or above the non-negative seed. */
  lemma {:induction false} FractionsMonotone(cd: seq<CalcPoint>, p: Params)
    requires ValidInput(cd, p)
    ensures forall a, b :: 0 <= a <= b < |Fractions(cd, p)| ==> 0.0 <= Fractions(cd, p)[a] <= Fractions(cd, p)[b]
  {
    var st := Steps(cd, 0, p.vTotal);
    var fr := Cumulative(Seed(p), st);
    SeedValue(p);
    StepsNonNegative(cd, p);
    forall a, b | 0 <= a <= b < |fr|
      ensures 0.0 <= fr[a] <= fr[b]
    {
      CumulativeMonotone(Seed(p), st, a, b);
    }
  }

  /** A positive visible value makes the last cumulative fraction exceed the first. */
  lemma {:induction false} FractionsGrow(cd: seq<CalcPoint>, p: Params)
    requires ValidInput(cd, p)
    ensures Fractions(cd, p)[0] < Fractions(cd, p)[|Fractions(cd, p)| - 1]
  {
    var s0 := Seed(p);
    var st := Steps(cd, 0, p.vTotal);
    var fr := Cumulative(s0, st);
    StepsNonNegative(cd, p);
    var j :| 0 <= j < |cd| && !cd[j].hidden && 0.0 < cd[j].v;
    var k := Rank(cd, j);
    RankPosition(cd, 0, j);
    StepsAt(cd, 0, p.vTotal, k);
    assert 0.0 < st[k];
    CumulativeStep(s0, st, k);
    CumulativeMonotone(s0, st, 0, k);
    CumulativeMonotone(s0, st, k + 1, |st|);
  }

  /**
   * The shape of the accumulated boundary points: x = sqrt(s) never decreases
   * and is positive at the end, y = -x, so the first point has the greatest y
   * and the last the least, and the two differ.
   */
  lemma {:induction false} RawShape(cd: seq<CalcPoint>, p: Params, sqrt: real -> real)
    requires IsSqrt(sqrt) && ValidInput(cd, p)
    ensures var raw := RawPoints(cd, p, sqrt);
            && (forall a, b :: 0 <= a <= b < |raw| ==> 0.0 <= raw[a].x <= raw[b].x)
            && (forall k :: 0 <= k < |raw| ==> raw[k].y == -raw[k].x)
            && 0.0 < raw[|raw| - 1].x
            && MinY(raw) == raw[|raw| - 1].y
            && MaxY(raw) == raw[0].y
            && MinY(raw) < MaxY(raw)
  {
    var raw := RawPoints(cd, p, sqrt);
    var fr := Cumulative(Seed(p), Steps(cd, 0, p.vTotal));
    FractionsMonotone(cd, p);
    FractionsGrow(cd, p);
    forall a, b | 0 <= a <= b < |raw|
      ensures 0.0 <= raw[a].x <= raw[b].x
    {
      SqrtMonotone(sqrt, fr[a], fr[b]);
    }
    DescendingExtremes(raw);
    SqrtStrictlyMonotone(sqrt, fr[0], fr[|fr| - 1]);
  }

  /** allPoints once centred. */
  function CenteredPoints(cd: seq<CalcPoint>, p: Params, sqrt: real -> real): (pts: seq<Point>)
    requires -1.0 < p.baseratio < 1.0 && 0.0 < p.vTotal
    ensures |pts| == |Visible(cd, 0)| + 1
  {
    Shifted(RawPoints(cd, p, sqrt), Center(cd, p, sqrt))
  }

  /** The y that centring moves to 0: halfway between the extremes. */
  function Center(cd: seq<CalcPoint>, p: Params, sqrt: real -> real): (c: real)
    requires -1.0 < p.baseratio < 1.0 && 0.0 < p.vTotal
  {
    var raw := RawPoints(cd, p, sqrt);
    (MaxY(raw) + MinY(raw)) / 2.0
  }

  /** scaleX: the factor that takes the last boundary point's x to r. */
  function ScaleX(cd: seq<CalcPoint>, p: Params, sqrt: real -> real): (sx: real)
    requires IsSqrt(sqrt) && ValidInput(cd, p)
  {
    RawShape(cd, p, sqrt);
    var centered := CenteredPoints(cd, p, sqrt);
    WidthScale(p, centered[|centered| - 1].x)
  }

  /** The x factor that takes lastX to r. */
  function WidthScale(p: Params, lastX: real): (sx: real)
    requires lastX != 0.0
  {
    p.r / lastX
  }

  /** scaleY: the factor that makes the height r * heightratio * 2. */
  function ScaleY(cd: seq<CalcPoint>, p: Params, sqrt: real -> real): (sy: real)
    requires IsSqrt(sqrt) && ValidInput(cd, p)
  {
    RawShape(cd, p, sqrt);
    var raw := RawPoints(cd, p, sqrt);
    HeightScale(p, MinY(raw), MaxY(raw))
  }

  /** The y factor that stretches the span from minY to maxY to r * heightratio * 2. */
  function HeightScale(p: Params, minY: real, maxY: real): (sy: real)
    requires minY < maxY
  {
    p.r * p.heightratio * 2.0 / (maxY - minY)
  }

  /** scaleY in terms of the extremes of the accumulated points. */
  lemma {:induction false} ScaleYValue(cd: seq<CalcPoint>, p: Params, sqrt: real -> real, minY: real, maxY: real)
    requires IsSqrt(sqrt) && ValidInput(cd, p)
    requires minY == MinY(RawPoints(cd, p, sqrt)) && maxY == MaxY(RawPoints(cd, p, sqrt))
    ensures minY < maxY
    ensures ScaleY(cd, p, sqrt) == HeightScale(p, minY, maxY)
  {
    RawShape(cd, p, sqrt);
  }

  /** allPoints as the corner loop reads it: centred, then scaled. */
  function FinalPoints(cd: seq<CalcPoint>, p: Params, sqrt: real -> real): (pts: seq<Point>)
    requires IsSqrt(sqrt) && ValidInput(cd, p)
    ensures |pts| == |Visible(cd, 0)| + 1
  {
    Scaled(CenteredPoints(cd, p, sqrt), ScaleX(cd, p, sqrt), ScaleY(cd, p, sqrt))
  }

  /**
   * Centring keeps the x-values and the order of the y-values, and leaves the
   * first (greatest y) and last (least y) boundary points at opposite heights.
   */
  lemma {:induction false} CenteredShape(cd: seq<CalcPoint>, p: Params, sqrt: real -> real)
    requires IsSqrt(sqrt) && ValidInput(cd, p)
    ensures var raw := RawPoints(cd, p, sqrt);
            var c := CenteredPoints(cd, p, sqrt);
            && (forall k :: 0 <= k < |c| ==> c[k].x == raw[k].x)
            && (forall a, b :: 0 <= a <= b < |c| ==> c[b].y <= c[a].y)
            && c[0].y + c[|c| - 1].y == 0.0
  {
    var raw := RawPoints(cd, p, sqrt);
    var c := CenteredPoints(cd, p, sqrt);
    RawShape(cd, p, sqrt);
    CenteredBalanced(raw);
    DescendingExtremes(c);
  }

  lemma {:induction false} CancelScale(x: real, r: real)
    requires 0.0 < x
    ensures x * (r / x) == r
  {
  }

  /** Scaling keeps a first and last y that sum to zero summing to zero. */
  lemma {:induction false} ScaledEnds(c: seq<Point>, sx: real, sy: real)
    requires |c| > 0 && c[0].y + c[|c| - 1].y == 0.0
    ensures Scaled(c, sx, sy)[0].y + Scaled(c, sx, sy)[|c| - 1].y == 0.0
  {
    var n := |c| - 1;
    assert Scaled(c, sx, sy)[0].y + Scaled(c, sx, sy)[n].y == (c[0].y + c[n].y) * sy;
  }

  /** Scaling by sx = r / (last x) puts the last point at x == r. */
  lemma {:induction false} ScaledLastX(c: seq<Point>, sx: real, sy: real, r: real)
    requires |c| > 0 && 0.0 < c[|c| - 1].x && sx == r / c[|c| - 1].x
    ensures Scaled(c, sx, sy)[|c| - 1].x == r
  {
    CancelScale(c[|c| - 1].x, r);
  }

  /** Scaling a list whose first and last y are opposite and extreme keeps the extremes summing to zero. */
  lemma {:induction false} ScaledBalanced(c: seq<Point>, sx: real, sy: real)
    requires |c| > 0
    requires forall a, b :: 0 <= a <= b < |c| ==> c[b].y <= c[a].y
    requires c[0].y + c[|c| - 1].y == 0.0
    ensures MinY(Scaled(c, sx, sy)) + MaxY(Scaled(c, sx, sy)) == 0.0
  {
    var pts := Scaled(c, sx, sy);
    ScaledYOrder(c, sx, sy);
    ScaledEnds(c, sx, sy);
    if 0.0 <= sy {
      DescendingExtremes(pts);
    } else {
      AscendingExtremes(pts);
    }
  }

  /**
   * After centring and scaling, the last boundary point lies at x == r, the
   * x-values are non-negative and never decrease along the list, and the
   * smallest and largest y sum to zero.
   */
  lemma {:induction false} FinalShape(cd: seq<CalcPoint>, p: Params, sqrt: real -> real)
    requires IsSqrt(sqrt) && ValidInput(cd, p)
    ensures var pts := FinalPoints(cd, p, sqrt);
            && pts[|pts| - 1].x == p.r
            && (forall a, b :: 0 <= a <= b < |pts| ==> 0.0 <= pts[a].x <= pts[b].x)
            && MinY(pts) + MaxY(pts) == 0.0
  {
    var c := CenteredPoints(cd, p, sqrt);
    RawShape(cd, p, sqrt);
    CenteredShape(cd, p, sqrt);
    var sx, sy := ScaleX(cd, p, sqrt), ScaleY(cd, p, sqrt);
    QuotientNonNegative(p.r, c[|c| - 1].x);
    ScaledLastX(c, sx, sy, p.r);
    ScaledXOrder(c, sx, sy);
    ScaledBalanced(c, sx, sy);
  }

  // ---------------------------------------------------------------------------
  // Corner assignment

  /**
   * The slice of the k-th visible entry visited: boundary point k + 1 and its
   * mirror on top, boundary point k and its mirror at the bottom.
   */
  function SliceCorners(pts: seq<Point>, k: nat): (g: Corners)
    requires k + 1 < |pts|
  {
    var top := pts[k + 1];
    Corners(Mirror(top), top, Mirror(pts[k]), pts[k], Between(top, pts[k]))
  }

  /** The polygon [TR, TL, BL, BR] whose area the area check measures. */
  function Outline(g: Corners): (polygon: seq<Point>) {
    [g.TR, g.TL, g.BL, g.BR]
  }

  /** Entry j as the corner loop leaves it. */
  function Placed(cd: seq<CalcPoint>, pts: seq<Point>, j: nat): (e: CalcPoint)
    requires j < |cd| && |pts| == |Visible(cd, 0)| + 1
  {
    if cd[j].hidden then cd[j]
    else
      RankPosition(cd, 0, j);
      cd[j].(geom := Some(SliceCorners(pts, Rank(cd, j))))
  }

  /**
   * A list whose entries are all hidden has no visible entry, so the corner
   * loop, given the single seed point, places every entry as it was.
   */
  lemma {:induction false} AllHiddenPlaced(cd: seq<CalcPoint>, pts: seq<Point>)
    requires forall j :: 0 <= j < |cd| ==> cd[j].hidden
    requires |pts| == 1
    ensures |Visible(cd, 0)| == 0
    ensures forall j :: 0 <= j < |cd| ==> Placed(cd, pts, j) == cd[j]
  {
    VisibleSkipsHidden(cd, 0, |cd|);
  }

  /** The calc entries as setCoords leaves them. */
  function Layout(cd: seq<CalcPoint>, p: Params, sqrt: real -> real): (out: seq<CalcPoint>)
    requires IsSqrt(sqrt) && (|cd| > 0 ==> ValidInput(cd, p))
    ensures |out| == |cd|
  {
    if |cd| == 0 then cd
    else
      var pts := FinalPoints(cd, p, sqrt);
      seq(|cd|, j requires 0 <= j < |cd| => Placed(cd, pts, j))
  }

  // ---------------------------------------------------------------------------
  // Properties of the layout

  /**
   * Every entry keeps its value and hidden flag; hidden entries are left
   * exactly as they were and every visible entry is given corners.
   */
  lemma {:induction false} LayoutEntries(cd: seq<CalcPoint>, p: Params, sqrt: real -> real, j: nat)
    requires IsSqrt(sqrt) && ValidInput(cd, p) && j < |cd|
    ensures var e := Layout(cd, p, sqrt)[j];
            && e.v == cd[j].v && e.hidden == cd[j].hidden
            && (cd[j].hidden ==> e == cd[j])
            && (!cd[j].hidden ==> e.geom.Some?)
  {
  }

  /** The corners a visible entry gets: slice Rank(cd, j) of the final boundary points. */
  lemma {:induction false} LayoutGeom(cd: seq<CalcPoint>, p: Params, sqrt: real -> real, j: nat)
    requires IsSqrt(sqrt) && ValidInput(cd, p) && j < |cd| && !cd[j].hidden
    ensures Rank(cd, j) + 1 < |FinalPoints(cd, p, sqrt)|
    ensures Layout(cd, p, sqrt)[j].geom == Some(SliceCorners(FinalPoints(cd, p, sqrt), Rank(cd, j)))
  {
    RankPosition(cd, 0, j);
  }

  /**
   * Each visible slice is symmetric about the vertical axis with horizontal top
   * and bottom edges, is at least as wide at the top as at the bottom, and its
   * pxmid is the midpoint of its right edge TR-BR.
   */
  lemma {:induction false} LayoutSliceShape(cd: seq<CalcPoint>, p: Params, sqrt: real -> real, j: nat)
    requires IsSqrt(sqrt) && ValidInput(cd, p) && j < |cd| && !cd[j].hidden
    ensures Layout(cd, p, sqrt)[j].geom.Some?
    ensures var g := Layout(cd, p, sqrt)[j].geom.value;
            && g.TL == Point(-g.TR.x, g.TR.y)
            && g.BL == Point(-g.BR.x, g.BR.y)
            && 0.0 <= g.BR.x <= g.TR.x
            && g.pxmid.x - g.TR.x == g.BR.x - g.pxmid.x
            && g.pxmid.y - g.TR.y == g.BR.y - g.pxmid.y
  {
    var pts := FinalPoints(cd, p, sqrt);
    RankPosition(cd, 0, j);
    FinalShape(cd, p, sqrt);
    var k := Rank(cd, j);
    assert 0.0 <= pts[k].x <= pts[k + 1].x;
  }

  /**
   * The first visible entry visited (the last visible one in cd) stands on the
   * first boundary point and its mirror.
   */
  lemma {:induction false} LayoutStackBase(cd: seq<CalcPoint>, p: Params, sqrt: real -> real, j: nat)
    requires IsSqrt(sqrt) && ValidInput(cd, p) && j < |cd| && !cd[j].hidden
    requires forall i :: j < i < |cd| ==> cd[i].hidden
    ensures Layout(cd, p, sqrt)[j].geom.Some?
    ensures var g := Layout(cd, p, sqrt)[j].geom.value;
            var pts := FinalPoints(cd, p, sqrt);
            g.BL == Mirror(pts[0]) && g.BR == pts[0]
  {
    VisibleSkipsHidden(cd, j + 1, |cd|);
    RankPosition(cd, 0, j);
  }

  /**
   * The stack has no gaps: when j < j2 are visible and every entry between them
   * is hidden, the bottom corners of j are the top corners of j2, the entry
   * visited just before it.
   */
  lemma {:induction false} LayoutStackContinuous(cd: seq<CalcPoint>, p: Params, sqrt: real -> real, j: nat, j2: nat)
    requires IsSqrt(sqrt) && ValidInput(cd, p)
    requires j < j2 < |cd| && !cd[j].hidden && !cd[j2].hidden
    requires forall i :: j < i < j2 ==> cd[i].hidden
    ensures Layout(cd, p, sqrt)[j].geom.Some? && Layout(cd, p, sqrt)[j2].geom.Some?
    ensures var g := Layout(cd, p, sqrt)[j].geom.value;
            var g2 := Layout(cd, p, sqrt)[j2].geom.value;
            g.BL == g2.TL && g.BR == g2.TR
  {
    VisibleSkipsHidden(cd, j + 1, j2);
    assert Visible(cd, j2) == Visible(cd, j2 + 1) + [j2];
    RankPosition(cd, 0, j);
    RankPosition(cd, 0, j2);
  }

  /** Between the boundary points of visible entry j, sumSteps grows by exactly v / vTotal. */
  lemma {:induction false} FractionStep(cd: seq<CalcPoint>, p: Params, j: nat)
    requires ValidInput(cd, p) && j < |cd| && !cd[j].hidden
    ensures Rank(cd, j) + 1 < |Fractions(cd, p)|
    ensures 0.0 <= Fractions(cd, p)[Rank(cd, j)] && 0.0 <= cd[j].v / p.vTotal
    ensures Fractions(cd, p)[Rank(cd, j) + 1] == Fractions(cd, p)[Rank(cd, j)] + cd[j].v / p.vTotal
  {
    QuotientNonNegative(cd[j].v, p.vTotal);
    var k := Rank(cd, j);
    RankPosition(cd, 0, j);
    StepsAt(cd, 0, p.vTotal, k);
    CumulativeStep(Seed(p), Steps(cd, 0, p.vTotal), k);
    FractionsMonotone(cd, p);
  }

  /** Boundary point k after centring by c and scaling by sx, sy. */
  lemma {:induction false} FinalPointAt(cd: seq<CalcPoint>, p: Params, sqrt: real -> real, k: nat, q: real, c: real, sx: real, sy: real)
    requires IsSqrt(sqrt) && ValidInput(cd, p) && k < |Fractions(cd, p)|
    requires q == sqrt(Fractions(cd, p)[k])
    requires c == Center(cd, p, sqrt)
    requires sx == ScaleX(cd, p, sqrt) && sy == ScaleY(cd, p, sqrt)
    ensures FinalPoints(cd, p, sqrt)[k] == Point(Mul(q, sx), Mul(-q - c, sy))
  {
    var fr := Fractions(cd, p);
    assert FinalPoints(cd, p, sqrt) == Scaled(Shifted(Boundary(sqrt, fr), c), sx, sy);
    PipelinePoint(sqrt, fr, k, q, c, sx, sy);
  }

  /** Point k of the boundary of fr, moved up by c and scaled by sx, sy. */
  lemma {:induction false} PipelinePoint(sqrt: real -> real, fr: seq<real>, k: nat, q: real, c: real, sx: real, sy: real)
    requires k < |fr| && q == sqrt(fr[k])
    ensures Scaled(Shifted(Boundary(sqrt, fr), c), sx, sy)[k] == Point(Mul(q, sx), Mul(-q - c, sy))
  {
    var b := Boundary(sqrt, fr);
    assert b[k] == Point(q, -q);
    assert Shifted(b, c)[k] == Point(q, -q - c);
  }

  lemma {:induction false} SqrtDifference(sqrt: real -> real, s0: real, s1: real, step: real)
    requires IsSqrt(sqrt) && 0.0 <= s0 && 0.0 <= step && s1 == s0 + step
    ensures sqrt(s1) * sqrt(s1) - sqrt(s0) * sqrt(s0) == step
  {
    assert Squared(sqrt, s0) == s0;
    assert Squared(sqrt, s1) == s1;
  }

  /**
   * Area proportionality: the polygon [TR, TL, BL, BR] of each visible slice
   * has area scaleX * |scaleY| * v / vTotal, so slice areas are in the ratio of
   * the values.
   */
  lemma {:induction false} LayoutSliceArea(cd: seq<CalcPoint>, p: Params, sqrt: real -> real, j: nat)
    requires IsSqrt(sqrt) && ValidInput(cd, p) && j < |cd| && !cd[j].hidden
    ensures Layout(cd, p, sqrt)[j].geom.Some?
    ensures PolygonArea(Outline(Layout(cd, p, sqrt)[j].geom.value))
            == Mul(AreaScale(cd, p, sqrt), cd[j].v / p.vTotal)
  {
    var k := Rank(cd, j);
    FractionStep(cd, p, j);
    LayoutGeom(cd, p, sqrt, j);
    BoundarySliceArea(cd, p, sqrt, k, cd[j].v / p.vTotal);
  }

  /** The factor scaleX * |scaleY| between the area of a slice and its share v / vTotal. */
  function AreaScale(cd: seq<CalcPoint>, p: Params, sqrt: real -> real): (factor: real)
    requires IsSqrt(sqrt) && ValidInput(cd, p)
  {
    Mul(ScaleX(cd, p, sqrt), Abs(ScaleY(cd, p, sqrt)))
  }

  /**
   * The polygon of the slice between boundary points k and k + 1 has area
   * scaleX * |scaleY| times the growth of the cumulative fraction between them.
   */
  lemma {:induction false} BoundarySliceArea(cd: seq<CalcPoint>, p: Params, sqrt: real -> real, k: nat, step: real)
    requires IsSqrt(sqrt) && ValidInput(cd, p) && k + 1 < |Fractions(cd, p)|
    requires 0.0 <= Fractions(cd, p)[k] && 0.0 <= step
    requires Fractions(cd, p)[k + 1] == Fractions(cd, p)[k] + step
    ensures PolygonArea(Outline(SliceCorners(FinalPoints(cd, p, sqrt), k)))
            == Mul(AreaScale(cd, p, sqrt), step)
  {
    var fr := Fractions(cd, p);
    var c, sx, sy := Center(cd, p, sqrt), ScaleX(cd, p, sqrt), ScaleY(cd, p, sqrt);
    ScaleXPositive(cd, p, sqrt);
    FinalPointAt(cd, p, sqrt, k, sqrt(fr[k]), c, sx, sy);
    FinalPointAt(cd, p, sqrt, k + 1, sqrt(fr[k + 1]), c, sx, sy);
    BoundarySlab(FinalPoints(cd, p, sqrt), k, sqrt, fr[k], fr[k + 1], c, sx, sy, step);
  }

  /**
   * The slice between the boundary points of fractions f0 and f1 = f0 + step,
   * centred by c and scaled by sx, sy, has area sx * |sy| * step.
   */
  lemma {:induction false} BoundarySlab(pts: seq<Point>, k: nat, sqrt: real -> real, f0: real, f1: real,
                                        c: real, sx: real, sy: real, step: real)
    requires IsSqrt(sqrt) && 0.0 <= f0 && 0.0 <= step && f1 == f0 + step && 0.0 < sx && k + 1 < |pts|
    requires pts[k] == Point(Mul(sqrt(f0), sx), Mul(-sqrt(f0) - c, sy))
    requires pts[k + 1] == Point(Mul(sqrt(f1), sx), Mul(-sqrt(f1) - c, sy))
    ensures PolygonArea(Outline(SliceCorners(pts, k))) == Mul(Mul(sx, Abs(sy)), step)
  {
    SqrtDifference(sqrt, f0, f1, step);
    SliceAreaOf(pts, k, sqrt(f0), sqrt(f1), c, sx, sy, step);
  }

  lemma {:induction false} ScaleXPositive(cd: seq<CalcPoint>, p: Params, sqrt: real -> real)
    requires IsSqrt(sqrt) && ValidInput(cd, p)
    ensures 0.0 < ScaleX(cd, p, sqrt)
  {
    var raw := RawPoints(cd, p, sqrt);
    RawShape(cd, p, sqrt);
    QuotientNonNegative(p.r, raw[|raw| - 1].x);
  }

  /** The area of SliceCorners(pts, k) once boundary points k and k + 1 are known in closed form. */
  lemma {:induction false} SliceAreaOf(pts: seq<Point>, k: nat, q0: real, q1: real, c: real, sx: real, sy: real, step: real)
    requires k + 1 < |pts|
    requires 0.0 < sx && 0.0 <= step && q1 * q1 - q0 * q0 == step
    requires pts[k + 1] == Point(Mul(q1, sx), Mul(-q1 - c, sy))
    requires pts[k] == Point(Mul(q0, sx), Mul(-q0 - c, sy))
    ensures PolygonArea(Outline(SliceCorners(pts, k))) == Mul(Mul(sx, Abs(sy)), step)
  {
    ScaledSlabArea(pts[k + 1], pts[k], q0, q1, c, sx, sy, step);
  }

  /** Every visible slice's pxmid lies at x >= 0, in the right-hand column of the quadrants. */
  lemma {:induction false} LayoutPxmidRight(cd: seq<CalcPoint>, p: Params, sqrt: real -> real, j: nat)
    requires IsSqrt(sqrt) && ValidInput(cd, p) && j < |cd| && !cd[j].hidden
    ensures Layout(cd, p, sqrt)[j].geom.Some?
    ensures 0.0 <= Layout(cd, p, sqrt)[j].geom.value.pxmid.x
  {
    LayoutSliceShape(cd, p, sqrt, j);
  }

  // ---------------------------------------------------------------------------
  // The radius

  /** The corners g with every point multiplied by k. */
  function DilatedCorners(g: Corners, k: real): (d: Corners) {
    Corners(Dilated(g.TL, k), Dilated(g.TR, k), Dilated(g.BL, k), Dilated(g.BR, k), Dilated(g.pxmid, k))
  }

  /**
   * Neither the cumulative fractions nor the centring depend on r: setCoords
   * run with radius k * r centres the same points.
   */
  lemma {:induction false} RadiusCentered(cd: seq<CalcPoint>, p: Params, sqrt: real -> real, k: real)
    requires -1.0 < p.baseratio < 1.0 && 0.0 < p.vTotal
    ensures Fractions(cd, p.(r := k * p.r)) == Fractions(cd, p)
    ensures CenteredPoints(cd, p.(r := k * p.r), sqrt) == CenteredPoints(cd, p, sqrt)
  {
    assert Seed(p.(r := k * p.r)) == Seed(p);
  }

  /** scaleX is linear in r. */
  lemma {:induction false} RadiusScaleX(cd: seq<CalcPoint>, p: Params, sqrt: real -> real, k: real)
    requires IsSqrt(sqrt) && ValidInput(cd, p) && 0.0 < k
    ensures ValidInput(cd, p.(r := k * p.r))
    ensures ScaleX(cd, p.(r := k * p.r), sqrt) == Mul(ScaleX(cd, p, sqrt), k)
  {
    assert 0.0 < k * p.r;
    RadiusCentered(cd, p, sqrt, k);
    RawShape(cd, p, sqrt);
    var c := CenteredPoints(cd, p, sqrt);
    WidthScaleRadius(p, c[|c| - 1].x, k);
  }

  /** scaleY is linear in r. */
  lemma {:induction false} RadiusScaleY(cd: seq<CalcPoint>, p: Params, sqrt: real -> real, k: real)
    requires IsSqrt(sqrt) && ValidInput(cd, p) && 0.0 < k
    ensures ValidInput(cd, p.(r := k * p.r))
    ensures ScaleY(cd, p.(r := k * p.r), sqrt) == Mul(ScaleY(cd, p, sqrt), k)
  {
    assert 0.0 < k * p.r;
    RadiusCentered(cd, p, sqrt, k);
    RawShape(cd, p, sqrt);
    var raw := RawPoints(cd, p, sqrt);
    HeightScaleRadius(p, MinY(raw), MaxY(raw), k);
  }

  lemma {:induction false} QuotientScale(a: real, x: real, k: real)
    requires x != 0.0
    ensures (k * a) / x == Mul(a / x, k)
  {
    assert (k * a) / x * x == (a / x * k) * x;
  }

  lemma {:induction false} WidthScaleRadius(p: Params, lastX: real, k: real)
    requires lastX != 0.0
    ensures WidthScale(p.(r := k * p.r), lastX) == Mul(WidthScale(p, lastX), k)
  {
    QuotientScale(p.r, lastX, k);
  }

  lemma {:induction false} HeightScaleRadius(p: Params, minY: real, maxY: real, k: real)
    requires minY < maxY
    ensures HeightScale(p.(r := k * p.r), minY, maxY) == Mul(HeightScale(p, minY, maxY), k)
  {
    var a := p.r * p.heightratio * 2.0;
    assert (k * p.r) * p.heightratio * 2.0 == k * a;
    QuotientScale(a, maxY - minY, k);
  }

  /** Scaling by sx * k and sy * k is scaling by sx and sy, then enlarging by k. */
  lemma {:induction false} ScaledDilated(c: seq<Point>, sx: real, sy: real, k: real)
    ensures forall i :: 0 <= i < |c| ==> Scaled(c, Mul(sx, k), Mul(sy, k))[i] == Dilated(Scaled(c, sx, sy)[i], k)
  {
    forall i | 0 <= i < |c|
      ensures Scaled(c, Mul(sx, k), Mul(sy, k))[i] == Dilated(Scaled(c, sx, sy)[i], k)
    {
      assert c[i].x * (sx * k) == (c[i].x * sx) * k;
      assert c[i].y * (sy * k) == (c[i].y * sy) * k;
    }
  }

  /**
   * Scale invariance: with radius k * r every final boundary point is the
   * boundary point for radius r enlarged by k.
   */
  lemma {:induction false} RadiusFinalPoints(cd: seq<CalcPoint>, p: Params, sqrt: real -> real, k: real)
    requires IsSqrt(sqrt) && ValidInput(cd, p) && 0.0 < k
    ensures ValidInput(cd, p.(r := k * p.r))
    ensures var pts := FinalPoints(cd, p, sqrt);
            var pts' := FinalPoints(cd, p.(r := k * p.r), sqrt);
            |pts'| == |pts| && forall i :: 0 <= i < |pts| ==> pts'[i] == Dilated(pts[i], k)
  {
    RadiusScaleX(cd, p, sqrt, k);
    RadiusScaleY(cd, p, sqrt, k);
    RadiusCentered(cd, p, sqrt, k);
    ScaledDilated(CenteredPoints(cd, p, sqrt), ScaleX(cd, p, sqrt), ScaleY(cd, p, sqrt), k);
  }

  /**
   * Scale invariance of the layout: with radius k * r every visible entry gets
   * its corners for radius r enlarged by k, and hidden entries stay as they are.
   */
  lemma {:induction false} LayoutRadius(cd: seq<CalcPoint>, p: Params, sqrt: real -> real, k: real, j: nat)
    requires IsSqrt(sqrt) && ValidInput(cd, p) && 0.0 < k && j < |cd|
    ensures ValidInput(cd, p.(r := k * p.r))
    ensures cd[j].hidden ==> Layout(cd, p.(r := k * p.r), sqrt)[j] == cd[j] == Layout(cd, p, sqrt)[j]
    ensures !cd[j].hidden ==>
              && Layout(cd, p, sqrt)[j].geom.Some?
              && Layout(cd, p.(r := k * p.r), sqrt)[j].geom == Some(DilatedCorners(Layout(cd, p, sqrt)[j].geom.value, k))
  {
    var p' := p.(r := k * p.r);
    RadiusFinalPoints(cd, p, sqrt, k);
    LayoutEntries(cd, p, sqrt, j);
    LayoutEntries(cd, p', sqrt, j);
    if !cd[j].hidden {
      LayoutGeom(cd, p, sqrt, j);
      LayoutGeom(cd, p', sqrt, j);
      var n := Rank(cd, j);
      var pts := FinalPoints(cd, p, sqrt);
      var top, bottom := pts[n + 1], pts[n];
      assert FinalPoints(cd, p', sqrt)[n + 1] == Dilated(top, k);
      assert FinalPoints(cd, p', sqrt)[n] == Dilated(bottom, k);
      MirrorDilated(top, k);
      MirrorDilated(bottom, k);
      BetweenDilated(top, bottom, k);
    }
  }
}
