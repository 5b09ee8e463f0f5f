/**
 * main_app.py: report rows stored as entered, the Hotspot page with its
 * row-count guard and uncapped radius, the Closest and Biggest Dump targets
 * saved for an event, the Community page's sort orders and the image file
 * name it looks up.
 */
module MainApp {
  import opened Wrappers
  import opened Geometry
  import opened Labels
  import opened Targeting
  import opened Sorting
  import opened Reports

  /** One row of the report file: latitude, longitude and the `YYYYMMDD` date as a number. */
  datatype Row = Row(lat: real, lon: real, date: int)

  /** The row appended on submit: `[lat, lon, date]` exactly as entered. */
  function Submit(lat: real, lon: real, date: int): (r: Row)
    ensures r.lat == lat && r.lon == lon && r.date == date
  {
    Row(lat, lon, date)
  }

  /** The point a row stands for, and where its marker is drawn. */
  function Position(r: Row): Coord
  {
    Coord(r.lat, r.lon)
  }

  /** The report coordinates handed to DBSCAN and to the distance computations. */
  function Positions(rows: seq<Row>): (ps: seq<Coord>)
    ensures |ps| == |rows| && forall k :: 0 <= k < |rows| ==> ps[k] == Position(rows[k])
  {
    seq(|rows|, k requires 0 <= k < |rows| => Position(rows[k]))
  }

  /** Nothing is negated on the way in or out: a submitted report is drawn at the coordinates entered. */
  lemma MarkerShowsEntered(lat: real, lon: real, date: int)
    ensures Position(Submit(lat, lon, date)) == Coord(lat, lon)
  {
  }

  // ---------------------------------------------------------------- hotspots

  /** The circle for label `l`: centred at the members' mean, radius the largest member distance in metres. */
  function HotspotOf(pts: seq<Coord>, labels: seq<int>, l: int, dist: Distance): (h: Hotspot)
    requires |pts| == |labels| && l in labels
    ensures h.clusterLabel == l && h.center == Centroid(Members(pts, labels, l))
  {
    MembersOfOccurringLabel(pts, labels, l);
    var ms := Members(pts, labels, l);
    var center := Centroid(ms);
    Hotspot(l, center, Max(DistancesTo(ms, center, dist)) * 1000.0)
  }

  /**
   * With no cap the circle reaches every member of its cluster, and its
   * edge passes through one of them; its centre lies within the range of
   * the members' coordinates.
   */
  lemma HotspotCoversMembers(pts: seq<Coord>, labels: seq<int>, l: int, dist: Distance)
    requires |pts| == |labels| && l in labels
    ensures |Members(pts, labels, l)| > 0
    ensures var h := HotspotOf(pts, labels, l, dist);
      var ms := Members(pts, labels, l);
      && h.center == Centroid(ms)
      && (forall k :: 0 <= k < |ms| ==> dist(ms[k], h.center) * 1000.0 <= h.radiusM)
      && (exists k :: 0 <= k < |ms| && h.radiusM == dist(ms[k], h.center) * 1000.0)
      && Min(Lats(ms)) <= h.center.lat <= Max(Lats(ms))
      && Min(Lons(ms)) <= h.center.lon <= Max(Lons(ms))
  {
    MembersOfOccurringLabel(pts, labels, l);
    var ms := Members(pts, labels, l);
    var center := Centroid(ms);
    var ds := DistancesTo(ms, center, dist);
    var m := Max(ds);
    forall k | 0 <= k < |ms| ensures dist(ms[k], center) * 1000.0 <= m * 1000.0 {
      assert ds[k] == dist(ms[k], center) <= m;
    }
    var k :| 0 <= k < |ds| && ds[k] == m;
    assert m * 1000.0 == dist(ms[k], center) * 1000.0;
    MeanWithinBounds(Lats(ms));
    MeanWithinBounds(Lons(ms));
  }

  /**
   * The Hotspot page: stop below `MinReports` rows, otherwise one circle per
   * non-noise label of `set(dbscan.labels_)`, in whatever order the set
   * yields.
   */
  method DrawHotspots(pts: seq<Coord>, labels: seq<int>, dist: Distance) returns (r: Result<seq<Hotspot>, Failure>)
    requires |pts| == |labels|
    ensures r.Err? <==> |pts| < MinReports
    ensures r.Err? ==> r.error == InsufficientData
    ensures r.Ok? ==>
      && LabelsOf(r.value) == HotspotLabels(labels)
      && DistinctLabels(r.value) && |r.value| == |HotspotLabels(labels)|
      && forall h :: h in r.value ==> h.clusterLabel in labels && h == HotspotOf(pts, labels, h.clusterLabel, dist)
  {
    if |pts| < MinReports {
      return Err(InsufficientData);
    }
    var remaining := LabelSet(labels);
    ghost var done: set<int> := {};
    var circles: seq<Hotspot> := [];
    while remaining != {}
      invariant remaining + done == LabelSet(labels)
      invariant remaining !! done
      invariant Covers(circles, done)
      invariant forall h :: h in circles ==> h.clusterLabel in labels && h == HotspotOf(pts, labels, h.clusterLabel, dist)
      decreases remaining
    {
      NonEmptySet(remaining);
      var next :| next in remaining;
      if next != Noise {
        var h := HotspotOf(pts, labels, next, dist);
        CoversAppend(circles, done, h);
        circles := circles + [h];
      }
      remaining := remaining - {next};
      done := done + {next};
    }
    DistinctLabelsCount(circles);
    return Ok(circles);
  }

  // ---------------------------------------------------------------- cleanup targets

  /**
   * The Closest Dump target of the Organize Cleanup page: stop without a
   * complete position, fail on an empty table, otherwise the stored
   * position of a row nearest to the user.
   */
  function ClosestTarget(loc: Option<Location>, rows: seq<Row>, dist: Distance): (r: Result<Coord, Failure>)
    ensures r.Err? <==> UserPosition(loc).Err? || rows == []
    ensures UserPosition(loc).Err? ==> r == Err(UserPosition(loc).error)
    ensures UserPosition(loc).Ok? && rows == [] ==> r == Err(EmptyDataset)
    ensures r.Ok? ==>
      && (exists i :: 0 <= i < |rows| && r.value == Position(rows[i]))
      && forall j :: 0 <= j < |rows| ==> dist(UserPosition(loc).value, r.value) <= dist(UserPosition(loc).value, Position(rows[j]))
  {
    match UserPosition(loc)
    case Err(e) => Err(e)
    case Ok(u) =>
      match ClosestDump(u, Positions(rows), dist)
      case Err(e) => Err(e)
      case Ok(c) => Ok(c.target)
  }

  /** Closest Dump saves the chosen row's own latitude and longitude, as stored. */
  lemma ClosestTargetIsStoredRow(user: Coord, rows: seq<Row>, dist: Distance)
    ensures var r := ClosestDump(user, Positions(rows), dist);
      && (r.Err? <==> rows == [])
      && (r.Ok? ==>
            && r.value.index < |rows|
            && r.value.target == Coord(rows[r.value.index].lat, rows[r.value.index].lon)
            && forall j :: 0 <= j < |rows| ==> r.value.distanceKm <= dist(user, Position(rows[j])))
  {
  }

  /** Biggest Dump saves the mean of the rows of a largest cluster. */
  lemma BiggestTargetIsClusterMean(rows: seq<Row>, labels: seq<int>)
    requires |labels| == |rows|
    ensures var r := BiggestDump(Positions(rows), labels);
      && (r == Err(InsufficientData) <==> |rows| < MinReports)
      && (r.Ok? ==>
            && r.value.clusterLabel != Noise
            && (forall l :: l in labels && l != Noise ==> multiset(labels)[l] <= multiset(labels)[r.value.clusterLabel])
            && r.value.centroid == Centroid(Members(Positions(rows), labels, r.value.clusterLabel)))
  {
  }

  // ---------------------------------------------------------------- community

  /** The Community page's sort choices. */
  datatype SortOption = MostRecent | ClosestToMe

  /** `(lat - user_lat)**2 + (lon - user_lon)**2`: the square of the planar distance the page sorts by. */
  function PlanarDistanceSquared(r: Row, user: Coord): (d: real)
    ensures d >= 0.0
  {
    (r.lat - user.lat) * (r.lat - user.lat) + (r.lon - user.lon) * (r.lon - user.lon)
  }

  /**
   * The order the Community page lists the rows in: newest date first,
   * nearest first when the user's position is known, and the file order
   * otherwise.
   */
  function CommunityOrder(rows: seq<Row>, option: SortOption, user: Option<Coord>): (r: seq<Row>)
    ensures multiset(r) == multiset(rows)
    ensures option == MostRecent ==>
      forall i, j :: 0 <= i < j < |r| ==> r[i].date >= r[j].date
    ensures option == ClosestToMe && user.Some? ==>
      forall i, j :: 0 <= i < j < |r| ==> PlanarDistanceSquared(r[i], user.value) <= PlanarDistanceSquared(r[j], user.value)
    ensures option == ClosestToMe && user.None? ==> r == rows
  {
    if option == MostRecent then
      var key := (x: Row) => -(x.date as real);
      SortBySorted(rows, key);
      SortBy(rows, key)
    else if user.Some? then
      var u := user.value;
      var key := (x: Row) => PlanarDistanceSquared(x, u);
      SortBySorted(rows, key);
      SortBy(rows, key)
    else
      rows
  }

  /** `os.path.join("uploaded_images", f"img_{date}_{lat}_{lon}.jpg")`, from the printed fields. */
  function ImagePath(dateText: string, latText: string, lonText: string): (p: string)
    ensures "uploaded_images/img_" <= p && |p| >= 24 && p[|p| - 4..] == ".jpg"
  {
    "uploaded_images/img_" + Underscored(dateText, latText, lonText) + ".jpg"
  }

  /**
   * A row's image is looked up under a name that determines its date,
   * latitude and longitude text, as long as the first two contain no
   * underscore (digits, sign and decimal point do not).
   */
  lemma ImagePathInjective(d: string, a: string, o: string, d': string, a': string, o': string)
    requires '_' !in d && '_' !in a && '_' !in d' && '_' !in a'
    requires ImagePath(d, a, o) == ImagePath(d', a', o')
    ensures d == d' && a == a' && o == o'
  {
    StripAffixes("uploaded_images/img_", Underscored(d, a, o), Underscored(d', a', o'), ".jpg");
    UnderscoredInjective(d, a, o, d', a', o');
  }
}
