/**
 * The two ways the Organize Cleanup page picks a target: the report nearest
 * to the user ("Closest Dump") and the centroid of the largest cluster
 * ("Biggest Dump"). Both scripts that have the page do the same here.
 */
module Targeting {
  import opened Wrappers
  import opened Geometry
  import opened Labels

  /** Why a page stops instead of producing a target. */
  datatype Failure =
    | InsufficientData   // fewer than `MinReports` rows: "Not enough reports to identify clusters."
    | NoClustersFound    // every row is noise: "No clusters detected in the current data."
    | EmptyDataset       // no report row: `np.argmin` or `DBSCAN.fit` of an empty table raises
    | NoLocation         // the widget gave nothing: "Unable to retrieve your geolocation."
    | IncompleteLocation // a coordinate is missing or null: "Geolocation data is incomplete."

  /** DBSCAN's `min_samples`, and the row count below which the pages stop before clustering. */
  const MinReports: nat := 5

  /**
   * The user's position for Closest Dump: `location.get('latitude')` and
   * `location.get('longitude')`, stopping when there is no answer or either
   * coordinate is absent.
   */
  function UserPosition(loc: Option<Location>): (r: Result<Coord, Failure>)
    ensures r == Err(NoLocation) <==> loc.None?
    ensures r.Ok? <==> loc.Some? && loc.value.latitude.Value? && loc.value.longitude.Value?
    ensures r.Ok? ==> r.value == Coord(loc.value.latitude.x, loc.value.longitude.x)
    ensures r.Err? && loc.Some? ==> r.error == IncompleteLocation
  {
    match loc
    case None => Err(NoLocation)
    case Some(Location(Value(lat), Value(lon))) => Ok(Coord(lat, lon))
    case Some(_) => Err(IncompleteLocation)
  }

  /** `np.argmin`: a position of the smallest element, the first one when several are equal. */
  function ArgMin(d: seq<real>): (k: nat)
    requires |d| > 0
    ensures k < |d|
    ensures forall j :: 0 <= j < |d| ==> d[k] <= d[j]
    ensures forall j :: 0 <= j < k ==> d[k] < d[j]
  {
    if |d| == 1 then 0
    else
      var n := |d| - 1;
      var k := ArgMin(d[..n]);
      assert forall j :: 0 <= j < n ==> d[j] == d[..n][j];
      if d[n] < d[k] then n else k
  }

  /** The result of the Closest Dump search: the chosen row, its distance, and the saved target. */
  datatype Closest = Closest(index: nat, distanceKm: real, target: Coord)

  /**
   * Closest Dump: distances from the user to every stored report coordinate,
   * then the first row at the smallest distance. The saved target is that
   * row's stored coordinate, unchanged.
   */
  function ClosestDump(user: Coord, pts: seq<Coord>, dist: Distance): (r: Result<Closest, Failure>)
    ensures r.Err? <==> pts == []
    ensures r.Err? ==> r.error == EmptyDataset
    ensures r.Ok? ==>
      var c := r.value;
      && c.index < |pts|
      && c.distanceKm == dist(user, pts[c.index])
      && c.target == pts[c.index]
      && (forall j :: 0 <= j < |pts| ==> c.distanceKm <= dist(user, pts[j]))
      && (forall j :: 0 <= j < c.index ==> c.distanceKm < dist(user, pts[j]))
  {
    if pts == [] then Err(EmptyDataset)
    else
      var d := seq(|pts|, j requires 0 <= j < |pts| => dist(user, pts[j]));
      assert forall j :: 0 <= j < |pts| ==> d[j] == dist(user, pts[j]);
      var k := ArgMin(d);
      Ok(Closest(k, d[k], pts[k]))
  }

  /** The result of the Biggest Dump search: the cluster label, its report count and its centroid. */
  datatype Biggest = Biggest(clusterLabel: int, count: nat, centroid: Coord)

  /**
   * Biggest Dump: stop below `MinReports` rows, stop when every label is
   * noise, otherwise take a most frequent non-noise label and the mean of
   * its members. The target saved for the event is that centroid, in the
   * stored sign convention.
   */
  function BiggestDump(pts: seq<Coord>, labels: seq<int>): (r: Result<Biggest, Failure>)
    requires |labels| == |pts|
    ensures r == Err(InsufficientData) <==> |pts| < MinReports
    ensures r == Err(NoClustersFound) <==> MinReports <= |pts| && forall i :: 0 <= i < |labels| ==> labels[i] == Noise
    ensures r.Ok? <==> MinReports <= |pts| && exists i :: 0 <= i < |labels| && labels[i] != Noise
    ensures r.Ok? ==>
      var b := r.value;
      && b.clusterLabel != Noise && b.clusterLabel in labels
      && b.count == multiset(labels)[b.clusterLabel]
      && (forall l :: l in labels && l != Noise ==> multiset(labels)[l] <= b.count)
      && |Members(pts, labels, b.clusterLabel)| == b.count
      && b.centroid == Centroid(Members(pts, labels, b.clusterLabel))
  {
    if |pts| < MinReports then Err(InsufficientData)
    else
      var clusters := Clustered(labels);
      if clusters == [] then
        assert forall i :: 0 <= i < |labels| ==> labels[i] !in clusters;
        Err(NoClustersFound)
      else
        var best := MostFrequent(clusters, clusters);
        MembersOfOccurringLabel(pts, labels, best);
        var members := Members(pts, labels, best);
        Ok(Biggest(best, multiset(clusters)[best], Centroid(members)))
  }

  /** Every coordinate of the Biggest Dump target lies within the range of its cluster's member coordinates. */
  lemma BiggestDumpCentroidWithinCluster(pts: seq<Coord>, labels: seq<int>)
    requires |labels| == |pts| && MinReports <= |pts|
    requires exists i :: 0 <= i < |labels| && labels[i] != Noise
    ensures BiggestDump(pts, labels).Ok?
    ensures var b := BiggestDump(pts, labels).value;
      var ms := Members(pts, labels, b.clusterLabel);
      && Min(Lats(ms)) <= b.centroid.lat <= Max(Lats(ms))
      && Min(Lons(ms)) <= b.centroid.lon <= Max(Lons(ms))
  {
    var b := BiggestDump(pts, labels).value;
    var ms := Members(pts, labels, b.clusterLabel);
    MeanWithinBounds(Lats(ms));
    MeanWithinBounds(Lons(ms));
  }
}
