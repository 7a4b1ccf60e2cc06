# Funnel-area layout

A Dafny model of the geometry behind plotly.js's `funnelarea` trace. The model covers four pieces of `src/traces/funnelarea/plot.js`:
- `setCoords`, which turns the ordered calc entries into stacked trapezoids;
- the midpoint helper `getBetween`;
- the area check that the file keeps as a comment, together with its `polygonArea`;
- the rule in `plot` that sorts the drawn slices into four quadrant buckets.

## How `setCoords` works

`setCoords` walks the entries from last to first and skips hidden ones. It starts the cumulative fraction `sumSteps` at `h^2 / (1 - h^2)`, where `h` is the trace's `baseratio`. At each visible entry it adds `v / vTotal` and pushes the boundary point `[sqrt(s), -sqrt(s)]`.

It then moves every point vertically by the midpoint of the extreme heights. It scales x so that the last point lies at `x = r`, and scales y so that the height is `r * heightratio * 2`.

Finally it walks the entries again. The n-th visible entry gets the top corners `TL = [-x, y]` and `TR = [x, y]` from boundary point n. Its bottom corners `BL` and `BR` are the top corners of the entry placed before it. `pxmid` is the midpoint of `TR` and `BR`.

## How the model is organised

`funnel_plot.dfy` (module `FunnelPlot`) is `setCoords` as it runs:
- a method over an `array` of calc entries;
- one method per loop, each with its invariants.

Each loop is proved to compute a function of `funnel_layout.dfy` (module `FunnelLayout`). In particular, `SetCoords` is proved to leave the array holding `Layout` of its old contents. The lemmas of `FunnelLayout` state what the layout is:
- the cumulative fractions never decrease;
- the shape is centred, and it is scaled to the radius;
- every slice is symmetric with horizontal edges;
- the stack has no gaps;
- every slice's area is proportional to its value.

The other modules cover the remaining pieces:
- `funnel_geometry.dfy` (module `FunnelGeometry`) holds points, `getBetween`, the shoelace area and the trapezoid algebra.
- `funnel_area.dfy` (module `FunnelArea`) models the commented-out area check. It proves that after `setCoords` the areas it collects match the value shares.
- `funnel_quadrants.dfy` (module `FunnelQuadrants`) models the quadrant bucketing.

Arithmetic is on `real`. `Math.sqrt` is a parameter `sqrt` of which the model assumes only `IsSqrt`: on a non-negative argument it returns a non-negative number whose square is that argument.

Apart from returning at once on an empty list (line 156), the code checks none of its inputs. For a non-empty list, the model requires `ValidInput`, the inputs on which `setCoords` computes finite numbers and the layout has the shape proved. Each condition has its own reason:
- `-1 < baseratio < 1`, that is `h^2 < 1`. `h^2 == 1` divides by zero in `v0` (plot.js line 164). `h^2 > 1` makes the seed negative, and `Math.sqrt` of it is NaN (line 170). A negative `baseratio` is harmless, because only its square is used.
- `vTotal > 0`. A zero total divides by zero in `sumSteps` (`v0 / v1`, line 167) and in every step (`cdi.v / totalValues`, line 191). It is the total of the visible values, computed before `setCoords` runs, so it is positive whenever one of them is.
- At least one visible value is positive. Otherwise every boundary point has the same y, and `scaleY` divides by `maxY - minY == 0` (line 213).
- `r > 0`. This guards no division. It is the radius the sizing step supplies, and it keeps `scaleX` and every x non-negative.
- Every visible value is non-negative. This guards no division either. A negative value makes a step negative, so `sumSteps` could decrease or drop below zero, where its square root is NaN.

## Model

| member | source | states |
|---|---|---|
| FunnelPlot.SetCoords | src/traces/funnelarea/plot.js:155-265 | An empty list is left as it is. Otherwise the array ends up holding `Layout` of its old contents: every visible entry gets its corners and every hidden one is left untouched. |
| FunnelPlot.SeedSteps | src/traces/funnelarea/plot.js:160-167 | The first `sumSteps`, `v0 / v1` with `v0 = v1 * h^2 / (1 - h^2)`, equals `h^2 / (1 - h^2)`: `v1` cancels out, and the result is never negative. It is the seed of the cumulative fractions. |
| FunnelPlot.AccumulatePoints | src/traces/funnelarea/plot.js:182-195 | The accumulation loop leaves `allPoints` holding `[sqrt(s), -sqrt(s)]` for the seed and for each cumulative fraction `s`, in visiting order. That is one point per visible entry plus one. |
| FunnelPlot.AccumulateVisible | src/traces/funnelarea/plot.js:187-195 | At a visible entry, adding `v / vTotal` and pushing the new boundary point keeps the loop invariant: `allPoints` is the boundary of the cumulative fractions so far. |
| FunnelPlot.AccumulateHidden | src/traces/funnelarea/plot.js:187-189 | A hidden entry adds no step and no point, and the loop invariant still holds. |
| FunnelPlot.YRange | src/traces/funnelarea/plot.js:197-203 | The extremes loop returns the least and greatest y of the points. |
| FunnelPlot.CenterPoints | src/traces/funnelarea/plot.js:205-208 | The centring loop moves every y by `-c` and keeps every x. |
| FunnelPlot.ScalePoints | src/traces/funnelarea/plot.js:215-219 | The scaling loop multiplies every x by `scaleX` and every y by `scaleY`. |
| FunnelPlot.AssignCorners | src/traces/funnelarea/plot.js:221-245 | The corner loop gives the k-th visible entry it visits boundary point k+1 and its mirror as `TR` and `TL`, and boundary point k and its mirror as `BR` and `BL`. `pxmid` is set to their midpoint. Hidden entries are not changed. |
| FunnelGeometry.Between | src/traces/funnelarea/plot.js:288-293 | `getBetween` returns the point equidistant from `a` and `b` in each coordinate. |
| FunnelGeometry.Mirror | src/traces/funnelarea/plot.js:223-224 | `[-p[0], p[1]]` keeps the height and negates the x of `p`. |
| FunnelGeometry.SqrtStrictlyMonotone | src/traces/funnelarea/plot.js:169-175 | On the non-negative reals the square root taken by `calcPos` is strictly increasing and non-negative. |
| FunnelGeometry.TrapezoidArea | src/traces/funnelarea/plot.js:269-285 | The shoelace area of `[TR, TL, BL, BR]` for a slice symmetric about the vertical axis is the mean width times the height: `abs((TR.x + BR.x) * (TR.y - BR.y))`. |
| FunnelGeometry.ScaledSlabArea | src/traces/funnelarea/plot.js:255 | The slab between boundary points `q0` and `q1`, centred and scaled, has area `sx * abs(sy) * (q1^2 - q0^2)`. |
| FunnelArea.PolygonAreaOf | src/traces/funnelarea/plot.js:269-285 | The `polygonArea` loop computes half the absolute difference of the two shoelace sums over the closed polygon. |
| FunnelArea.AreaCheck | src/traces/funnelarea/plot.js:249-258 | The area check collects, in list order, the polygon area of every visible slice and no other, and totals them. |
| FunnelArea.LayoutHasCorners | src/traces/funnelarea/plot.js:226-245 | After `setCoords`, every visible entry carries corners, so the area check can read them. |
| FunnelArea.LayoutAreas | src/traces/funnelarea/plot.js:247-264 | After `setCoords` the areas the check collects are the visible shares `v / vTotal`, each multiplied by the same factor `scaleX * abs(scaleY)`. |
| FunnelArea.LayoutAreaShares | src/traces/funnelarea/plot.js:260-262 | Each collected area is to the total area as the slice's share is to the total share. This is what the check prints as `areas[i] / totalArea`. It is stated cross-multiplied. |
| FunnelArea.SumScaledBy | src/traces/funnelarea/plot.js:257 | When every area is `c` times its share, the total area is `c` times the total share. |
| FunnelLayout.VisibleDescending | src/traces/funnelarea/plot.js:187-189 | The visiting order holds the visible entries from the last to the first. |
| FunnelLayout.RankPosition | src/traces/funnelarea/plot.js:226-231 | A visible entry is visited at the position given by the number of visible entries after it. |
| FunnelLayout.VisibleSkipsHidden | src/traces/funnelarea/plot.js:189 | A run of hidden entries adds nothing to the visiting order. |
| FunnelLayout.CumulativeStep | src/traces/funnelarea/plot.js:191-192 | Each cumulative fraction is the previous one plus the step `v / vTotal` taken in between. |
| FunnelLayout.CumulativeMonotone | src/traces/funnelarea/plot.js:191-192 | With non-negative steps, `sumSteps` never decreases and never falls below its seed. |
| FunnelLayout.SeedValue | src/traces/funnelarea/plot.js:160-167 | The seed equals `h^2 / (1 - h^2)`, with `v1` cancelling out, and it is non-negative. |
| FunnelLayout.FractionsMonotone | src/traces/funnelarea/plot.js:183-195 | The cumulative fractions are non-negative and never decrease along the list. |
| FunnelLayout.FractionsGrow | src/traces/funnelarea/plot.js:183-195 | A positive visible value makes the last fraction exceed the first. |
| FunnelLayout.RawShape | src/traces/funnelarea/plot.js:169-203 | For the accumulated points: x is non-negative and never decreases; y = -x; the last x is positive; the first point has the greatest y and the last the least, and the two differ. |
| FunnelLayout.CenteredBalanced | src/traces/funnelarea/plot.js:205-208 | After shifting by the midpoint of the extremes, the least and greatest y sum to zero. |
| FunnelLayout.ShiftedExtremes | src/traces/funnelarea/plot.js:206-207 | A vertical shift by `c` shifts both extremes by `c`. |
| FunnelLayout.CenteredShape | src/traces/funnelarea/plot.js:205-208 | Centring keeps every x and the order of the y values. The first and last points end at opposite heights. |
| FunnelLayout.ScaleYValue | src/traces/funnelarea/plot.js:213 | The extremes differ, so `maxY - minY` is not zero. `scaleY` is `r * heightratio * 2 / (maxY - minY)`. |
| FunnelLayout.ScaledXOrder | src/traces/funnelarea/plot.js:216-217 | Scaling by `scaleX >= 0` keeps x non-negative and non-decreasing. |
| FunnelLayout.ScaledYOrder | src/traces/funnelarea/plot.js:216-218 | Scaling keeps the order of the y values when `scaleY >= 0` and reverses it when `scaleY < 0`. |
| FunnelLayout.ScaledBalanced | src/traces/funnelarea/plot.js:215-219 | Scaling keeps the least and greatest y summing to zero, whatever the sign of `scaleY`. |
| FunnelLayout.ScaledLastX | src/traces/funnelarea/plot.js:210-217 | After scaling by `r / lastX`, the last boundary point lies at `x = r`. |
| FunnelLayout.FinalShape | src/traces/funnelarea/plot.js:197-219 | After centring and scaling: the last x is `r`; the x values are non-negative and never decrease; the least and greatest y sum to zero. |
| FunnelLayout.LayoutEntries | src/traces/funnelarea/plot.js:227-236 | Every entry keeps its value and hidden flag. Hidden entries are unchanged and every visible entry gets corners. |
| FunnelLayout.LayoutGeom | src/traces/funnelarea/plot.js:226-245 | A visible entry's corners are the slice between the boundary points at its rank and at its rank plus one. |
| FunnelLayout.LayoutSliceShape | src/traces/funnelarea/plot.js:232-241 | For every visible slice: `TL = [-TR.x, TR.y]` and `BL = [-BR.x, BR.y]`, so it is symmetric with horizontal edges; `0 <= BR.x <= TR.x`; `pxmid` is the midpoint of `TR` and `BR`. |
| FunnelLayout.LayoutStackBase | src/traces/funnelarea/plot.js:221-239 | The first visible entry processed (the last visible entry in `cd`) stands on the first boundary point and its mirror. |
| FunnelLayout.LayoutStackContinuous | src/traces/funnelarea/plot.js:238-244 | The stack has no gaps. When `j < j2` are visible and everything between them is hidden, `BL`/`BR` of `j` are `TL`/`TR` of `j2`. |
| FunnelLayout.FractionStep | src/traces/funnelarea/plot.js:191-192 | Between the two boundary points of visible entry `j`, `sumSteps` grows by exactly `v / vTotal`. |
| FunnelLayout.LayoutSliceArea | src/traces/funnelarea/plot.js:247-258 | The polygon `[TR, TL, BL, BR]` of every visible slice has area `scaleX * abs(scaleY) * v / vTotal`. |
| FunnelLayout.BoundarySliceArea | src/traces/funnelarea/plot.js:255 | The slice between boundary points k and k+1 has area `scaleX * abs(scaleY)` times the growth of the fraction between them. |
| FunnelLayout.LayoutPxmidRight | src/traces/funnelarea/plot.js:241 | Every visible slice's `pxmid` has x >= 0. |
| FunnelLayout.AllHiddenPlaced | src/traces/funnelarea/plot.js:226-245 | When every entry is hidden there is no visible entry, and the corner loop, given the single seed point, writes nothing. |
| FunnelLayout.RadiusCentered | src/traces/funnelarea/plot.js:160-208 | The cumulative fractions and the centred points do not depend on `r`. |
| FunnelLayout.RadiusScaleX | src/traces/funnelarea/plot.js:212 | With radius `k * r`, `scaleX` is `k` times its value for radius `r`. |
| FunnelLayout.RadiusScaleY | src/traces/funnelarea/plot.js:213 | With radius `k * r`, `scaleY` is `k` times its value for radius `r`. |
| FunnelLayout.RadiusFinalPoints | src/traces/funnelarea/plot.js:210-219 | Scale invariance: with radius `k * r` (for `k > 0`), every final boundary point is the one for radius `r` with both coordinates multiplied by `k`. |
| FunnelLayout.LayoutRadius | src/traces/funnelarea/plot.js:221-245 | Scale invariance of the layout: with radius `k * r`, every corner and `pxmid` of every visible entry is multiplied by `k`, and hidden entries stay as they were. |
| FunnelGeometry.MirrorDilated | src/traces/funnelarea/plot.js:223-236 | Mirroring a point across the vertical axis commutes with multiplying its coordinates by `k`. |
| FunnelGeometry.BetweenDilated | src/traces/funnelarea/plot.js:288-293 | The midpoint of two points, each multiplied by `k`, is their midpoint multiplied by `k`. |
| FunnelQuadrants.FillQuadrants | src/traces/funnelarea/plot.js:52-67 | The bucketing loop builds a 2 x 2 grid. Cell `[row][col]` lists, in list order, the visible entries whose `pxmid` has `y < 0` exactly when `row` is 0 and `x < 0` exactly when `col` is 0. |
| FunnelQuadrants.BucketMembers | src/traces/funnelarea/plot.js:57-67 | An entry is in bucket `[row][col]` if and only if it is visible and its `pxmid` selects that bucket. |
| FunnelQuadrants.BucketSizes | src/traces/funnelarea/plot.js:57-67 | The four buckets together are exactly as long as the list of visible entries, so each visible slice lands in exactly one bucket. |
| FunnelQuadrants.LayoutLeftBucketsEmpty | src/traces/funnelarea/plot.js:67 | After `setCoords` both left-hand buckets (`pxmid[0] < 0`) stay empty. |

## Left out

- The d3/SVG drawing in `plot` is not modelled: selections, enter/exit, attributes, path strings built with `move`/`line`, and text placement and transforms. These are DOM work and calls into files that are not part of this model.
- `scalePies` and `attachFxHandlers` are not modelled. The model takes as fields of `Params`:
  - the radius `r` that `scalePies` leaves on `cd[0]`;
  - the total `vTotal` that the calc step leaves there;
  - the trace's `baseratio` and `heightratio`.
- The pie sizing code, `attributes.js` and `layout_defaults.js` are not part of this model.
- IEEE-754 arithmetic is not modelled; the model uses exact reals. `Math.sqrt` is the parameter `sqrt`, constrained only by `IsSqrt`, and `Math.pow(h, 2)` is `h * h`.
- SetCoords: requires `ValidInput` for a non-empty list, so inputs on which JavaScript computes `Infinity` or `NaN`, and those with `r <= 0` or a negative visible value (on which the code can compute finite numbers, e.g. every corner `[0, 0]` when `r == 0`), are not modelled (each condition's reason is given above).
  - One case among them is a non-empty list whose entries are all hidden. The code computes non-finite scale factors there, but the corner loop writes nothing (plot.js lines 227-229), so the list stays unchanged.
  - The model states that case for the corner loop alone, in `AllHiddenPlaced` and the contract of `AssignCorners`, not for `SetCoords` as a whole.
- `baseratio` has only a lower bound, 0, in `attributes.js` (lines 70-79). Values of 1 or more therefore reach `setCoords` and give a division by zero or a NaN seed; nothing in these files rejects them.
- `heightratio` is read at plot.js line 213 but is not declared in `attributes.js`. Where it is defaulted is not among the files of this model. If it were undefined, `scaleY` and every y would be NaN. The model takes it as any real.
- `YRange`: the running extremes start at the first point's y instead of at `+Infinity`/`-Infinity`. This gives the same result on the non-empty list that `setCoords` always builds.
- Object identity is not modelled, because points and corners are values. In the code, `BL`/`BR` of one slice are the very arrays held as `TL`/`TR` of the previous one. The model states only that they are equal.
- The `console.log` output of the area check is not modelled. `AreaCheck` returns the areas and their total, and `LayoutAreaShares` states what the printed ratios are.
- `pointNumber` and `curveNumber`, which `plot` writes onto each visible entry, are not modelled.
- `setCoords` has no cone-angle shape: the `angle` attribute is never read. It applies no single uniform scale, since `scaleX` and `scaleY` are computed independently. It reports no error for bad parameters. The model follows the code, and the parameter bounds are preconditions rather than error results.
