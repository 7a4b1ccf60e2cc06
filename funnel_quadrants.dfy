// The quadrant buckets of plot in src/traces/funnelarea/plot.js: walking the
// slices in cd order, each visible one is pushed onto quadrants[row][col],
// row 0 when its pxmid lies above the centre (y < 0), column 0 when it lies
// left of the axis (x < 0). Hidden slices are skipped.

module FunnelQuadrants {
  import opened FunnelGeometry
  import opened FunnelLayout
  import opened FunnelArea

  /** The [row, column] of quadrants that a slice with midpoint pxmid goes to. */
  function Quadrant(pxmid: Point): (cell: (nat, nat)) {
    (if pxmid.y < 0.0 then 0 else 1, if pxmid.x < 0.0 then 0 else 1)
  }

  /** The visible entries among the first n whose pxmid selects [row, col], in cd order. */
  function Bucket(cd: seq<CalcPoint>, row: nat, col: nat, n: nat): (bucket: seq<CalcPoint>)
    requires HasCorners(cd) && n <= |cd|
  {
    if n == 0 then []
    else
      Bucket(cd, row, col, n - 1)
      + (if !cd[n - 1].hidden && Quadrant(cd[n - 1].geom.value.pxmid) == (row, col) then [cd[n - 1]] else [])
  }

  /** The 2 x 2 nested lists of the buckets. */
  predicate IsGrid(quadrants: seq<seq<seq<CalcPoint>>>) {
    |quadrants| == 2 && |quadrants[0]| == 2 && |quadrants[1]| == 2
  }

  /** The bucketing loop of plot: every visible slice pushed onto the bucket its pxmid selects. */
  method FillQuadrants(cd: seq<CalcPoint>) returns (quadrants: seq<seq<seq<CalcPoint>>>)
    requires HasCorners(cd)
    ensures IsGrid(quadrants)
    ensures forall row, col :: 0 <= row < 2 && 0 <= col < 2 ==> quadrants[row][col] == Bucket(cd, row, col, |cd|)
  {
    quadrants := [[[], []], [[], []]];
    var i := 0;
    while i < |cd|
      invariant 0 <= i <= |cd|
      invariant IsGrid(quadrants)
      invariant forall row, col :: 0 <= row < 2 && 0 <= col < 2 ==> quadrants[row][col] == Bucket(cd, row, col, i)
    {
      var pt := cd[i];
      if !pt.hidden {
        var row := if pt.geom.value.pxmid.y < 0.0 then 0 else 1;
        var col := if pt.geom.value.pxmid.x < 0.0 then 0 else 1;
        quadrants := quadrants[row := quadrants[row][col := quadrants[row][col] + [pt]]];
      }
      i := i + 1;
    }
  }

  /** A bucket holds exactly the visible entries among the first n whose pxmid selects it. */
  lemma {:induction false} BucketMembers(cd: seq<CalcPoint>, row: nat, col: nat, n: nat, x: CalcPoint)
    requires HasCorners(cd) && n <= |cd|
    ensures x in Bucket(cd, row, col, n) <==>
            exists j :: 0 <= j < n && cd[j] == x && !cd[j].hidden && Quadrant(cd[j].geom.value.pxmid) == (row, col)
  {
    if n > 0 {
      BucketMembers(cd, row, col, n - 1, x);
      var last := cd[n - 1];
      if x in Bucket(cd, row, col, n - 1) {
        var j :| 0 <= j < n - 1 && cd[j] == x && !cd[j].hidden && Quadrant(cd[j].geom.value.pxmid) == (row, col);
        assert 0 <= j < n;
      } else if x == last && !last.hidden && Quadrant(last.geom.value.pxmid) == (row, col) {
        assert x in Bucket(cd, row, col, n);
      } else {
        assert x !in Bucket(cd, row, col, n);
        forall j | 0 <= j < n && cd[j] == x && !cd[j].hidden
          ensures Quadrant(cd[j].geom.value.pxmid) != (row, col)
        {
        }
      }
    }
  }

  /**
   * Every visible entry lands in one bucket only: among the first n entries,
   * the four buckets together are as long as the list of visible entries
   * before n.
   */
  lemma {:induction false} BucketSizes(cd: seq<CalcPoint>, n: nat)
    requires HasCorners(cd) && n <= |cd|
    ensures |Bucket(cd, 0, 0, n)| + |Bucket(cd, 0, 1, n)| + |Bucket(cd, 1, 0, n)| + |Bucket(cd, 1, 1, n)|
            == |Visible(cd, 0)| - |Visible(cd, n)|
  {
    if n > 0 {
      BucketSizes(cd, n - 1);
      assert Visible(cd, n - 1) == Visible(cd, n) + (if cd[n - 1].hidden then [] else [n - 1]);
    }
  }

  /** A slice with pxmid.x >= 0 never lands in the left-hand column. */
  lemma {:induction false} RightColumnOnly(cd: seq<CalcPoint>, row: nat, n: nat)
    requires HasCorners(cd) && n <= |cd|
    requires forall j :: 0 <= j < |cd| && !cd[j].hidden ==> 0.0 <= cd[j].geom.value.pxmid.x
    ensures Bucket(cd, row, 0, n) == []
  {
    if n > 0 {
      RightColumnOnly(cd, row, n - 1);
    }
  }

  /**
   * After setCoords every pxmid lies on the right edge of its slice, so both
   * left-hand buckets stay empty.
   */
  lemma {:induction false} LayoutLeftBucketsEmpty(cd: seq<CalcPoint>, p: Params, sqrt: real -> real, row: nat)
    requires IsSqrt(sqrt) && ValidInput(cd, p)
    ensures HasCorners(Layout(cd, p, sqrt))
    ensures Bucket(Layout(cd, p, sqrt), row, 0, |cd|) == []
  {
    var out := Layout(cd, p, sqrt);
    LayoutHasCorners(cd, p, sqrt);
    forall j | 0 <= j < |out| && !out[j].hidden
      ensures 0.0 <= out[j].geom.value.pxmid.x
    {
      LayoutEntries(cd, p, sqrt, j);
      LayoutPxmidRight(cd, p, sqrt, j);
    }
    RightColumnOnly(out, row, |out|);
  }
}
