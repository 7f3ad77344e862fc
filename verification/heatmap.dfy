/** The rows behind the location heat-map: per-location occurrence counts
    are reduced to the locations that have both coordinates. */
module Heatmap {
  import opened Results
  import opened Models

  /** One row of the per-location count query. */
  datatype LocationCount = LocationCount(
    name: string, latitude: Option<Coordinate>, longitude: Option<Coordinate>, amount: nat)

  /** One weighted point of the heat-map. */
  datatype HeatPoint = HeatPoint(latitude: Coordinate, longitude: Coordinate, amount: nat)

  /** Both coordinates are present in the database. */
  predicate IsMapped(row: LocationCount)
  {
    row.latitude.Some? && row.longitude.Some?
  }

  function PointOf(row: LocationCount): HeatPoint
    requires IsMapped(row)
  {
    HeatPoint(row.latitude.value, row.longitude.value, row.amount)
  }

  /** The loop over the query rows: each mapped row contributes its
      latitude, longitude and count; the others are skipped. */
  function HeatRows(rows: seq<LocationCount>): (r: seq<HeatPoint>)
    ensures |r| <= |rows|
    ensures forall k :: 0 <= k < |rows| && IsMapped(rows[k]) ==> PointOf(rows[k]) in r
  {
    if |rows| == 0 then []
    else
      var init := rows[..|rows| - 1];
      var last := rows[|rows| - 1];
      assert forall k :: 0 <= k < |init| ==> rows[k] == init[k];
      if IsMapped(last) then HeatRows(init) + [PointOf(last)] else HeatRows(init)
  }

  /** The heat-map rows are exactly the mapped rows, projected to points,
      in input order: `idx` picks, in increasing order, every mapped row and
      no other. */
  lemma {:induction false} HeatRowsSelection(rows: seq<LocationCount>) returns (idx: seq<int>)
    ensures |idx| == |HeatRows(rows)|
    ensures forall k :: 0 <= k < |idx| ==>
      0 <= idx[k] < |rows| && IsMapped(rows[idx[k]]) && HeatRows(rows)[k] == PointOf(rows[idx[k]])
    ensures forall k, l :: 0 <= k < l < |idx| ==> idx[k] < idx[l]
    ensures forall j :: 0 <= j < |rows| && IsMapped(rows[j]) ==> j in idx
  {
    if |rows| == 0 {
      idx := [];
    } else {
      var n := |rows| - 1;
      var prev := HeatRowsSelection(rows[..n]);
      var before, after := HeatRows(rows[..n]), HeatRows(rows);
      if IsMapped(rows[n]) {
        assert after == before + [PointOf(rows[n])];
        idx := SelectMapped(rows, prev, before, after);
      } else {
        assert after == before;
        idx := SelectUnmapped(rows, prev, after);
      }
    }
  }

  /** `idx` picks the points `points` out of `rows`, in order, and misses no
      mapped row. */
  ghost predicate Selects(rows: seq<LocationCount>, points: seq<HeatPoint>, idx: seq<int>)
  {
    && |idx| == |points|
    && (forall k :: 0 <= k < |idx| ==>
          0 <= idx[k] < |rows| && IsMapped(rows[idx[k]]) && points[k] == PointOf(rows[idx[k]]))
    && (forall k, l :: 0 <= k < l < |idx| ==> idx[k] < idx[l])
    && (forall j :: 0 <= j < |rows| && IsMapped(rows[j]) ==> j in idx)
  }

  /** A mapped last row extends the selection by its own index. */
  lemma SelectMapped(rows: seq<LocationCount>, prev: seq<int>, before: seq<HeatPoint>, after: seq<HeatPoint>)
    returns (idx: seq<int>)
    requires |rows| > 0 && IsMapped(rows[|rows| - 1])
    requires Selects(rows[..|rows| - 1], before, prev)
    requires after == before + [PointOf(rows[|rows| - 1])]
    ensures Selects(rows, after, idx)
  {
    var n := |rows| - 1;
    assert forall j :: 0 <= j < n ==> rows[..n][j] == rows[j];
    idx := prev + [n];
    forall k | 0 <= k < |idx|
      ensures 0 <= idx[k] < |rows| && IsMapped(rows[idx[k]]) && after[k] == PointOf(rows[idx[k]])
    {
      if k < |prev| {
        assert idx[k] == prev[k] && after[k] == before[k];
      }
    }
    assert idx[|prev|] == n;
  }

  /** An unmapped last row leaves the selection as it is. */
  lemma SelectUnmapped(rows: seq<LocationCount>, prev: seq<int>, points: seq<HeatPoint>)
    returns (idx: seq<int>)
    requires |rows| > 0 && !IsMapped(rows[|rows| - 1])
    requires Selects(rows[..|rows| - 1], points, prev)
    ensures Selects(rows, points, idx)
  {
    var n := |rows| - 1;
    assert forall j :: 0 <= j < n ==> rows[..n][j] == rows[j];
    idx := prev;
  }
}
