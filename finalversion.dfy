/**
 * finalversion.py: report submission with the longitude negated on store,
 * the hotspot circles of the View Analysis page, and the accessibility
 * features of the Organize Cleanup page with their icons on the Community
 * page. Closest and Biggest Dump are in `Targeting`; the popup and the
 * date forms in `Reports` and `Dates`.
 */
module FinalVersion {
  import opened Wrappers
  import opened PyText
  import opened Geometry
  import opened Labels
  import opened Targeting
  import opened Reports

  // ---------------------------------------------------------------- reporting

  /** The coordinates pre-filled in the report form: the widget's, or (34.0, 79.0) when it gives none. */
  function InitialCoords(loc: Option<Location>): (c: Coord)
    ensures (loc.Some? && loc.value.latitude.Value? && loc.value.longitude.Value?)
      ==> c == Coord(loc.value.latitude.x, loc.value.longitude.x)
    ensures !(loc.Some? && loc.value.latitude.Value? && loc.value.longitude.Value?)
      ==> c == Coord(34.0, 79.0)
  {
    match loc
    case Some(Location(Value(lat), Value(lon))) => Coord(lat, lon)
    case _ => Coord(34.0, 79.0)
  }

  /**
   * `images/{date}_{lat}_{stored_lon}.jpg`: the name an image uploaded with
   * the entered longitude `lon` is written under, which carries `-lon`.
   */
  function ImagePath(date: string, lat: real, lon: real, fmt: NumberText): (p: string)
    ensures "images/" <= p && |p| >= 11 && p[|p| - 4..] == ".jpg"
  {
    var storedLon := -lon;
    "images/" + Underscored(date, fmt(lat), fmt(storedLon)) + ".jpg"
  }

  /** The row appended on submit: the longitude is stored negated, and so is the one in the image name. */
  function Submit(lat: real, lon: real, date: string, description: string, uploaded: bool, fmt: NumberText): (r: Report)
    ensures r.lat == lat && r.lon == -lon && r.date == date && r.description == description
    ensures r.image == Some(if uploaded then ImagePath(date, lat, lon, fmt) else "")
  {
    var storedLon := -lon;
    Report(lat, storedLon, date, description, Some(if uploaded then ImagePath(date, lat, lon, fmt) else ""))
  }

  /** Where a report marker is drawn: the stored longitude is negated again. */
  function Marker(r: Report): Coord
  {
    Mirror(Coord(r.lat, r.lon))
  }

  /** Negation on store and again on display: a submitted report is drawn at the coordinates entered. */
  lemma MarkerShowsEntered(lat: real, lon: real, date: string, description: string, uploaded: bool, fmt: NumberText)
    ensures Marker(Submit(lat, lon, date, description, uploaded, fmt)) == Coord(lat, lon)
  {
  }

  /** A report submitted without an image gets the three-line popup, never an image tag. */
  lemma NoUploadMeansTextPopup(lat: real, lon: real, date: string, description: string,
                               fmt: NumberText, fileExists: string -> bool, encode: string -> string)
    ensures var r := Submit(lat, lon, date, description, false, fmt);
      Popup(r, fmt, fileExists, encode) == PopupText(r, fmt)
  {
  }

  // ---------------------------------------------------------------- hotspots

  /** The cap on a hotspot's radius, in metres. */
  const RadiusCapM: real := 5000.0

  /** `min(max_distance * 1000, 5000)` */
  function CappedRadius(maxKm: real): (r: real)
    ensures r <= RadiusCapM && r <= maxKm * 1000.0
    ensures r == maxKm * 1000.0 || r == RadiusCapM
  {
    if RadiusCapM < maxKm * 1000.0 then RadiusCapM else maxKm * 1000.0
  }

  /** The members of a cluster as the map draws them: longitudes negated back. */
  function Shown(ms: seq<Coord>): (r: seq<Coord>)
    ensures |r| == |ms| && forall k :: 0 <= k < |ms| ==> r[k] == Mirror(ms[k])
  {
    seq(|ms|, k requires 0 <= k < |ms| => Mirror(ms[k]))
  }

  /** The circle centre: mean stored latitude, negated mean stored longitude. */
  function HotspotCenter(pts: seq<Coord>, labels: seq<int>, l: int): (c: Coord)
    requires |pts| == |labels| && l in labels
    ensures Mirror(c) == Centroid(Members(pts, labels, l))
  {
    MembersOfOccurringLabel(pts, labels, l);
    var ms := Members(pts, labels, l);
    Coord(Mean(Lats(ms)), -Mean(Lons(ms)))
  }

  /**
   * The circle drawn for label `l`, with the radius measured from the centre
   * to the members in the same (drawn) sign convention as the centre.
   */
  function HotspotOf(pts: seq<Coord>, labels: seq<int>, l: int, dist: Distance): (h: Hotspot)
    requires |pts| == |labels| && l in labels
    ensures h.clusterLabel == l && h.center == HotspotCenter(pts, labels, l) && h.radiusM <= RadiusCapM
  {
    MembersOfOccurringLabel(pts, labels, l);
    var center := HotspotCenter(pts, labels, l);
    var ds := DistancesTo(Shown(Members(pts, labels, l)), center, dist);
    Hotspot(l, center, CappedRadius(Max(ds)))
  }

  /**
   * The circle as finalversion.py:172-176 computes it: the centre carries the
   * drawn longitude but the members keep the stored one, so the radius
   * measures each member's mirror image against the centre.
   */
  function HotspotAsWritten(pts: seq<Coord>, labels: seq<int>, l: int, dist: Distance): (h: Hotspot)
    requires |pts| == |labels| && l in labels
    ensures h.clusterLabel == l && h.center == HotspotCenter(pts, labels, l) && h.radiusM <= RadiusCapM
  {
    MembersOfOccurringLabel(pts, labels, l);
    var center := HotspotCenter(pts, labels, l);
    var ds := DistancesTo(Members(pts, labels, l), center, dist);
    Hotspot(l, center, CappedRadius(Max(ds)))
  }

  /**
   * The corrected circle: the radius never exceeds 5000 m, covers every
   * member as drawn (up to the cap) and is reached by one of them (or is
   * the cap).
   */
  lemma HotspotRadius(pts: seq<Coord>, labels: seq<int>, l: int, dist: Distance)
    requires |pts| == |labels| && l in labels
    ensures var h := HotspotOf(pts, labels, l, dist);
      var ms := Members(pts, labels, l);
      && h.radiusM <= RadiusCapM
      && (forall k :: 0 <= k < |ms| ==>
            dist(Mirror(ms[k]), h.center) * 1000.0 <= h.radiusM || h.radiusM == RadiusCapM)
      && (h.radiusM == RadiusCapM ||
            exists k :: 0 <= k < |ms| && h.radiusM == dist(Mirror(ms[k]), h.center) * 1000.0)
  {
    MembersOfOccurringLabel(pts, labels, l);
    var h := HotspotOf(pts, labels, l, dist);
    var ms := Members(pts, labels, l);
    var ds := DistancesTo(Shown(ms), h.center, dist);
    var m := Max(ds);
    assert forall k :: 0 <= k < |ms| ==> ds[k] == dist(Mirror(ms[k]), h.center);
    assert h.radiusM == CappedRadius(m);
    if h.radiusM != RadiusCapM {
      assert h.radiusM == m * 1000.0;
      var k :| 0 <= k < |ds| && ds[k] == m;
      assert h.radiusM == dist(Mirror(ms[k]), h.center) * 1000.0;
    }
  }

  /**
   * The circle as written keeps the same promises, about the members at
   * their stored coordinates: at most 5000 m, reaching every stored member
   * unless capped, and reached by one of them unless capped.
   */
  lemma HotspotAsWrittenRadius(pts: seq<Coord>, labels: seq<int>, l: int, dist: Distance)
    requires |pts| == |labels| && l in labels
    ensures var h := HotspotAsWritten(pts, labels, l, dist);
      var ms := Members(pts, labels, l);
      && (forall k :: 0 <= k < |ms| ==>
            dist(ms[k], h.center) * 1000.0 <= h.radiusM || h.radiusM == RadiusCapM)
      && (h.radiusM == RadiusCapM ||
            exists k :: 0 <= k < |ms| && h.radiusM == dist(ms[k], h.center) * 1000.0)
  {
    MembersOfOccurringLabel(pts, labels, l);
    var h := HotspotAsWritten(pts, labels, l, dist);
    var ms := Members(pts, labels, l);
    var ds := DistancesTo(ms, h.center, dist);
    var m := Max(ds);
    assert forall k :: 0 <= k < |ms| ==> ds[k] == dist(ms[k], h.center);
    assert h.radiusM == CappedRadius(m);
    if h.radiusM != RadiusCapM {
      assert h.radiusM == m * 1000.0;
      var k :| 0 <= k < |ds| && ds[k] == m;
      assert h.radiusM == dist(ms[k], h.center) * 1000.0;
    }
  }

  /**
   * The centre is the mean of the members as drawn, so its latitude lies
   * between the smallest and the largest member latitude.
   */
  lemma HotspotCentroid(pts: seq<Coord>, labels: seq<int>, l: int, dist: Distance)
    requires |pts| == |labels| && l in labels
    ensures |Members(pts, labels, l)| > 0
    ensures var h := HotspotOf(pts, labels, l, dist);
      var ms := Members(pts, labels, l);
      && h.center == Centroid(Shown(ms))
      && Min(Lats(ms)) <= h.center.lat <= Max(Lats(ms))
  {
    MembersOfOccurringLabel(pts, labels, l);
    var ms := Members(pts, labels, l);
    CentroidOfMirrored(ms);
    assert Shown(ms) == seq(|ms|, k requires 0 <= k < |ms| => Mirror(ms[k]));
    MeanWithinBounds(Lats(ms));
  }

  /**
   * A cluster whose reports all sit on one stored point `p`: the circle is
   * centred on the drawn point `Mirror(p)`, the corrected radius is the
   * distance from that point to itself, and the radius as written is the
   * distance from the stored point to the drawn point.
   */
  lemma StackedCluster(pts: seq<Coord>, labels: seq<int>, l: int, p: Coord, dist: Distance)
    requires |pts| == |labels| && l in labels
    requires forall k :: 0 <= k < |pts| ==> pts[k] == p
    ensures HotspotCenter(pts, labels, l) == Mirror(p)
    ensures HotspotOf(pts, labels, l, dist).radiusM == CappedRadius(dist(Mirror(p), Mirror(p)))
    ensures HotspotAsWritten(pts, labels, l, dist).radiusM == CappedRadius(dist(p, Mirror(p)))
  {
    MembersOfOccurringLabel(pts, labels, l);
    var ms := Members(pts, labels, l);
    assert forall k :: 0 <= k < |ms| ==> ms[k] == p;
    MeanBetween(Lats(ms), p.lat, p.lat);
    MeanBetween(Lons(ms), p.lon, p.lon);
    var center := HotspotCenter(pts, labels, l);
    assert center == Mirror(p);
    var shown := DistancesTo(Shown(ms), center, dist);
    assert forall k :: 0 <= k < |shown| ==> shown[k] == dist(Mirror(p), Mirror(p));
    var written := DistancesTo(ms, center, dist);
    assert forall k :: 0 <= k < |written| ==> written[k] == dist(p, Mirror(p));
  }

  /**
   * Five reports stacked on one spot, stored as a Toronto report is stored
   * (longitude 79.4 for -79.4): the drawn members coincide with the centre,
   * so the radius is 0, while the computation as written measures the
   * distance to the mirror image of the spot and draws the full 5 km cap.
   */
  lemma StackedClusterRadius(dist: Distance)
    requires dist(Coord(43.7, -79.4), Coord(43.7, -79.4)) == 0.0
    requires dist(Coord(43.7, 79.4), Coord(43.7, -79.4)) >= 5.0
    ensures var p := Coord(43.7, 79.4);
      var pts, labels := [p, p, p, p, p], [0, 0, 0, 0, 0];
      && HotspotOf(pts, labels, 0, dist).radiusM == 0.0
      && HotspotAsWritten(pts, labels, 0, dist).radiusM == RadiusCapM
  {
    var p := Coord(43.7, 79.4);
    var pts, labels := [p, p, p, p, p], [0, 0, 0, 0, 0];
    assert labels[0] == 0;
    StackedCluster(pts, labels, 0, p, dist);
  }

  /**
   * The View Analysis page as written: stop when the geolocation widget
   * gives no answer, fail in `DBSCAN.fit` on an empty table; otherwise loop over `set(dbscan.labels_)` in whatever
   * order the set yields, skip the noise label and draw one circle per
   * other label, each computed as finalversion.py:169-176 does.
   */
  method DrawHotspots(loc: Option<Location>, pts: seq<Coord>, labels: seq<int>, dist: Distance)
    returns (r: Result<seq<Hotspot>, Failure>)
    requires |pts| == |labels|
    ensures r.Err? <==> loc.None? || pts == []
    ensures loc.None? ==> r == Err(NoLocation)
    ensures loc.Some? && pts == [] ==> r == Err(EmptyDataset)
    ensures r.Ok? ==>
      && LabelsOf(r.value) == HotspotLabels(labels)
      && DistinctLabels(r.value) && |r.value| == |HotspotLabels(labels)|
      && forall h :: h in r.value ==> h.clusterLabel in labels && h == HotspotAsWritten(pts, labels, h.clusterLabel, dist)
  {
    if loc.None? {
      return Err(NoLocation);
    }
    if pts == [] {
      return Err(EmptyDataset);
    }
    var remaining := LabelSet(labels);
    ghost var done: set<int> := {};
    var circles: seq<Hotspot> := [];
    while remaining != {}
      invariant remaining + done == LabelSet(labels)
      invariant remaining !! done
      invariant Covers(circles, done)
      invariant forall h :: h in circles ==> h.clusterLabel in labels && h == HotspotAsWritten(pts, labels, h.clusterLabel, dist)
      decreases remaining
    {
      NonEmptySet(remaining);
      var next :| next in remaining;
      if next != Noise {
        var h := HotspotAsWritten(pts, labels, next, dist);
        CoversAppend(circles, done, h);
        circles := circles + [h];
      }
      remaining := remaining - {next};
      done := done + {next};
    }
    DistinctLabelsCount(circles);
    return Ok(circles);
  }

  /** The same page drawing the corrected circle of `HotspotOf` for each label. */
  method DrawHotspotsCorrected(loc: Option<Location>, pts: seq<Coord>, labels: seq<int>, dist: Distance)
    returns (r: Result<seq<Hotspot>, Failure>)
    requires |pts| == |labels|
    ensures r.Err? <==> loc.None? || pts == []
    ensures loc.None? ==> r == Err(NoLocation)
    ensures loc.Some? && pts == [] ==> r == Err(EmptyDataset)
    ensures r.Ok? ==>
      && LabelsOf(r.value) == HotspotLabels(labels)
      && DistinctLabels(r.value) && |r.value| == |HotspotLabels(labels)|
      && forall h :: h in r.value ==> h.clusterLabel in labels && h == HotspotOf(pts, labels, h.clusterLabel, dist)
  {
    if loc.None? {
      return Err(NoLocation);
    }
    if pts == [] {
      return Err(EmptyDataset);
    }
    var remaining := LabelSet(labels);
    ghost var done: set<int> := {};
    var circles: seq<Hotspot> := [];
    while remaining != {}
      invariant remaining + done == LabelSet(labels)
      invariant remaining !! done
      invariant Covers(circles, done)
      invariant forall h :: h in circles ==> h.clusterLabel in labels && h == HotspotOf(pts, labels, h.clusterLabel, dist)
      decreases remaining
    {
      NonEmptySet(remaining);
      var next :| next in remaining;
      if next != Noise {
        var h := HotspotOf(pts, labels, next, dist);
        CoversAppend(circles, done, h);
        circles := circles + [h];
      }
      remaining := remaining - {next};
      done := done + {next};
    }
    DistinctLabelsCount(circles);
    return Ok(circles);
  }

  // ---------------------------------------------------------------- closest dump

  /**
   * Closest Dump with both ends of each distance in the same convention:
   * the user's position against each report as drawn. The saved target is
   * still the chosen report's stored coordinate.
   */
  function NearestReport(user: Coord, pts: seq<Coord>, dist: Distance): (r: Result<Closest, Failure>)
    ensures r.Err? <==> pts == []
    ensures r.Err? ==> r.error == EmptyDataset
    ensures r.Ok? ==>
      var c := r.value;
      && c.index < |pts|
      && c.distanceKm == dist(user, Mirror(pts[c.index]))
      && c.target == pts[c.index]
      && (forall j :: 0 <= j < |pts| ==> c.distanceKm <= dist(user, Mirror(pts[j])))
      && (forall j :: 0 <= j < c.index ==> c.distanceKm < dist(user, Mirror(pts[j])))
  {
    match ClosestDump(user, Shown(pts), dist)
    case Ok(c) => Ok(Closest(c.index, c.distanceKm, pts[c.index]))
    case Err(e) => Err(e)
  }

  /**
   * Two reports entered at (43.7, -79.4) and (43.7, -79.0), stored with
   * longitudes 79.4 and 79.0, and a user standing on the first. Measured as
   * finalversion.py:282-284 does, from the user's own coordinates to the
   * stored ones, the second is the closer; measured against the reports as
   * drawn, the first is, at distance 0.
   */
  lemma ClosestDumpPicksMirror(dist: Distance)
    requires dist(Coord(43.7, -79.4), Coord(43.7, 79.0)) < dist(Coord(43.7, -79.4), Coord(43.7, 79.4))
    requires dist(Coord(43.7, -79.4), Coord(43.7, -79.4)) == 0.0
    requires dist(Coord(43.7, -79.4), Coord(43.7, -79.0)) > 0.0
    ensures var user, pts := Coord(43.7, -79.4), [Coord(43.7, 79.4), Coord(43.7, 79.0)];
      && ClosestDump(user, pts, dist).Ok? && ClosestDump(user, pts, dist).value.index == 1
      && NearestReport(user, pts, dist).Ok? && NearestReport(user, pts, dist).value.index == 0
      && NearestReport(user, pts, dist).value.distanceKm == 0.0
  {
    var user, pts := Coord(43.7, -79.4), [Coord(43.7, 79.4), Coord(43.7, 79.0)];
    assert Mirror(pts[0]) == user;
  }

  /** The two ways of choosing where the cleanup event is held. */
  datatype TargetOption = ClosestDumpTarget | BiggestDumpTarget

  /**
   * The target saved with a cleanup event, in the stored convention, as
   * finalversion.py:264-368 computes it: the report whose stored coordinates
   * are nearest to the user's position, or the centroid of a largest
   * cluster. Each branch stops where its page does.
   */
  function CleanupTarget(option: TargetOption, loc: Option<Location>, pts: seq<Coord>, labels: seq<int>, dist: Distance): (r: Result<Coord, Failure>)
    requires |labels| == |pts|
    ensures option == ClosestDumpTarget ==> (r.Err? <==> UserPosition(loc).Err? || pts == [])
    ensures option == ClosestDumpTarget && UserPosition(loc).Err? ==> r == Err(UserPosition(loc).error)
    ensures option == ClosestDumpTarget && UserPosition(loc).Ok? && pts == [] ==> r == Err(EmptyDataset)
    ensures option == ClosestDumpTarget && r.Ok? ==>
      && r.value in pts
      && forall p :: p in pts ==> dist(UserPosition(loc).value, r.value) <= dist(UserPosition(loc).value, p)
    ensures option == BiggestDumpTarget ==> (r.Err? <==> BiggestDump(pts, labels).Err?)
    ensures option == BiggestDumpTarget && r.Err? ==> r.error == BiggestDump(pts, labels).error
    ensures option == BiggestDumpTarget && r.Ok? ==>
      exists l :: l in labels && l != Noise
        && (forall l' :: l' in labels && l' != Noise ==> multiset(labels)[l'] <= multiset(labels)[l])
        && r.value == Centroid(Members(pts, labels, l))
  {
    match option
    case ClosestDumpTarget =>
      (match UserPosition(loc)
       case Err(e) => Err(e)
       case Ok(u) =>
         match ClosestDump(u, pts, dist)
         case Err(e) => Err(e)
         case Ok(c) => Ok(c.target))
    case BiggestDumpTarget =>
      match BiggestDump(pts, labels)
      case Err(e) => Err(e)
      case Ok(b) => Ok(b.centroid)
  }

  /**
   * The cleanup target with Closest Dump corrected: the user's position is
   * compared with each report as drawn (`NearestReport`). Biggest Dump is
   * unchanged.
   */
  function CleanupTargetCorrected(option: TargetOption, loc: Option<Location>, pts: seq<Coord>, labels: seq<int>, dist: Distance): (r: Result<Coord, Failure>)
    requires |labels| == |pts|
    ensures option == ClosestDumpTarget ==> (r.Err? <==> UserPosition(loc).Err? || pts == [])
    ensures option == ClosestDumpTarget && UserPosition(loc).Err? ==> r == Err(UserPosition(loc).error)
    ensures option == ClosestDumpTarget && UserPosition(loc).Ok? && pts == [] ==> r == Err(EmptyDataset)
    ensures option == ClosestDumpTarget && r.Ok? ==>
      && r.value in pts
      && forall p :: p in pts ==> dist(UserPosition(loc).value, Mirror(r.value)) <= dist(UserPosition(loc).value, Mirror(p))
    ensures option == BiggestDumpTarget ==> r == CleanupTarget(option, loc, pts, labels, dist)
  {
    match option
    case ClosestDumpTarget =>
      (match UserPosition(loc)
       case Err(e) => Err(e)
       case Ok(u) =>
         match NearestReport(u, pts, dist)
         case Err(e) => Err(e)
         case Ok(c) => Ok(c.target))
    case BiggestDumpTarget => CleanupTarget(option, loc, pts, labels, dist)
  }

  // ---------------------------------------------------------------- accessibility features

  /** The four accessibility checkboxes of the Organize Cleanup page. */
  datatype Feature = Wheelchair | Interpreter | ChildFriendly | SeniorTransport

  /** The name a feature is stored under. */
  function Name(f: Feature): string
  {
    match f
    case Wheelchair => "wheelchair"
    case Interpreter => "interpreter"
    case ChildFriendly => "child_friendly"
    case SeniorTransport => "senior_transport"
  }

  /** The icon the Community page shows for a feature. */
  function Icon(f: Feature): string
  {
    match f
    case Wheelchair => "\U{267F}"
    case Interpreter => "\U{1F450}"
    case ChildFriendly => "\U{1F9D2}"
    case SeniorTransport => "\U{1F68C}"
  }

  /** The states of the four checkboxes. */
  datatype Checkboxes = Checkboxes(wheelchair: bool, interpreter: bool, childFriendly: bool, transport: bool)

  predicate IsChecked(b: Checkboxes, f: Feature)
  {
    match f
    case Wheelchair => b.wheelchair
    case Interpreter => b.interpreter
    case ChildFriendly => b.childFriendly
    case SeniorTransport => b.transport
  }

  /** `[f]` when `c` holds, else nothing: one conditional `append`. */
  function When(c: bool, f: Feature): (r: seq<Feature>)
    ensures r == [] || r == [f]
  {
    if c then [f] else []
  }

  /** The checked features, in the order the boxes are tested: wheelchair, interpreter, child_friendly, senior_transport. */
  function Checked(b: Checkboxes): (r: seq<Feature>)
    ensures forall f :: f in r <==> IsChecked(b, f)
  {
    When(b.wheelchair, Wheelchair) + When(b.interpreter, Interpreter)
    + When(b.childFriendly, ChildFriendly) + When(b.transport, SeniorTransport)
  }

  function Names(fs: seq<Feature>): (r: seq<string>)
    ensures |r| == |fs| && forall k :: 0 <= k < |fs| ==> r[k] == Name(fs[k])
  {
    seq(|fs|, k requires 0 <= k < |fs| => Name(fs[k]))
  }

  function Icons(fs: seq<Feature>): (r: seq<string>)
    ensures |r| == |fs| && forall k :: 0 <= k < |fs| ==> r[k] == Icon(fs[k])
  {
    seq(|fs|, k requires 0 <= k < |fs| => Icon(fs[k]))
  }

  /** One conditional `append` of a feature adds its name, or nothing. */
  lemma NamesAppend(fs: seq<Feature>, c: bool, f: Feature)
    ensures Names(fs + When(c, f)) == Names(fs) + NameIf(c, f)
  {
    assert |Names(fs + When(c, f))| == |Names(fs) + NameIf(c, f)|;
  }

  /** One conditional `append` of a feature adds its icon, or nothing. */
  lemma IconsAppend(fs: seq<Feature>, c: bool, f: Feature)
    ensures Icons(fs + When(c, f)) == Icons(fs) + (if c then [Icon(f)] else [])
  {
    assert |Icons(fs + When(c, f))| == |Icons(fs) + (if c then [Icon(f)] else [])|;
  }

  /** What one conditional `append` of a feature name adds to the list. */
  function NameIf(c: bool, f: Feature): seq<string>
  {
    if c then [Name(f)] else []
  }

  /** The names of the checked features are the four conditional appends, in order. */
  lemma CheckedNames(b: Checkboxes)
    ensures Names(Checked(b)) == NameIf(b.wheelchair, Wheelchair) + NameIf(b.interpreter, Interpreter)
      + NameIf(b.childFriendly, ChildFriendly) + NameIf(b.transport, SeniorTransport)
  {
    var w, i, c := When(b.wheelchair, Wheelchair), When(b.interpreter, Interpreter), When(b.childFriendly, ChildFriendly);
    NamesAppend([], b.wheelchair, Wheelchair);
    NamesAppend(w, b.interpreter, Interpreter);
    NamesAppend(w + i, b.childFriendly, ChildFriendly);
    NamesAppend(w + i + c, b.transport, SeniorTransport);
    assert [] + w == w;
  }

  /** The `access_features` cell: the names of the checked features joined by commas. */
  function Encoded(b: Checkboxes): string
  {
    Join(Names(Checked(b)), ",")
  }

  /** Building the cell: one `append` of the feature's name per checked box, then `",".join`. */
  method AccessFeatures(b: Checkboxes) returns (cell: string)
    ensures cell == Encoded(b)
  {
    var features: seq<string> := [];
    if b.wheelchair { features := features + [Name(Wheelchair)]; }
    assert features == NameIf(b.wheelchair, Wheelchair);
    if b.interpreter { features := features + [Name(Interpreter)]; }
    assert features == NameIf(b.wheelchair, Wheelchair) + NameIf(b.interpreter, Interpreter);
    if b.childFriendly { features := features + [Name(ChildFriendly)]; }
    assert features == NameIf(b.wheelchair, Wheelchair) + NameIf(b.interpreter, Interpreter)
      + NameIf(b.childFriendly, ChildFriendly);
    if b.transport { features := features + [Name(SeniorTransport)]; }
    assert features == NameIf(b.wheelchair, Wheelchair) + NameIf(b.interpreter, Interpreter)
      + NameIf(b.childFriendly, ChildFriendly) + NameIf(b.transport, SeniorTransport);
    CheckedNames(b);
    cell := Join(features, ",");
  }

  /** The features whose names occur in a text cell, in the order they are tested. */
  function Found(s: string): seq<Feature>
  {
    When(Contains(s, Name(Wheelchair)), Wheelchair) + When(Contains(s, Name(Interpreter)), Interpreter)
    + When(Contains(s, Name(ChildFriendly)), ChildFriendly) + When(Contains(s, Name(SeniorTransport)), SeniorTransport)
  }

  /** A feature is found in a cell exactly when its name occurs in it, and at most once. */
  lemma FoundExactly(s: string)
    ensures forall f :: f in Found(s) <==> Contains(s, Name(f))
    ensures |Found(s)| <= 4
  {
  }

  /** The features a stored cell shows icons for; none for a non-string cell. */
  function FoundIn(cell: Option<string>): (r: seq<Feature>)
    ensures cell.None? ==> r == []
  {
    match cell
    case None => []
    case Some(s) => Found(s)
  }

  /**
   * `get_access_icons`: one `append` of a feature's icon per feature name
   * that occurs in the cell, then `" ".join`; a non-string cell (NaN) gives `""`.
   */
  method AccessIcons(cell: Option<string>) returns (icons: string)
    ensures icons == Join(Icons(FoundIn(cell)), " ")
    ensures cell.None? ==> icons == ""
  {
    var found: seq<string> := [];
    if cell.Some? {
      var s := cell.value;
      ghost var fs: seq<Feature> := [];
      if Contains(s, Name(Wheelchair)) { found := found + [Icon(Wheelchair)]; }
      IconsAppend(fs, Contains(s, Name(Wheelchair)), Wheelchair);
      fs := fs + When(Contains(s, Name(Wheelchair)), Wheelchair);
      assert found == Icons(fs);
      if Contains(s, Name(Interpreter)) { found := found + [Icon(Interpreter)]; }
      IconsAppend(fs, Contains(s, Name(Interpreter)), Interpreter);
      fs := fs + When(Contains(s, Name(Interpreter)), Interpreter);
      assert found == Icons(fs);
      if Contains(s, Name(ChildFriendly)) { found := found + [Icon(ChildFriendly)]; }
      IconsAppend(fs, Contains(s, Name(ChildFriendly)), ChildFriendly);
      fs := fs + When(Contains(s, Name(ChildFriendly)), ChildFriendly);
      assert found == Icons(fs);
      if Contains(s, Name(SeniorTransport)) { found := found + [Icon(SeniorTransport)]; }
      IconsAppend(fs, Contains(s, Name(SeniorTransport)), SeniorTransport);
      fs := fs + When(Contains(s, Name(SeniorTransport)), SeniorTransport);
      assert found == Icons(fs);
      assert fs == Found(s);
    }
    icons := Join(found, " ");
  }

  // A pair of adjacent characters that occurs in one feature name and in no other.
  function KeyPos(f: Feature): nat
  {
    match f
    case Wheelchair => 0
    case Interpreter => 4
    case ChildFriendly => 12
    case SeniorTransport => 11
  }

  lemma KeyPairIsDistinctive(f: Feature, g: Feature)
    ensures KeyPos(f) + 1 < |Name(f)|
    ensures HasPair(Name(g), Name(f)[KeyPos(f)], Name(f)[KeyPos(f) + 1]) ==> f == g
    ensures Name(f)[KeyPos(f)] != ',' && Name(f)[KeyPos(f) + 1] != ','
  {
    match f
    case Wheelchair => OnlyIn(g, Wheelchair, 'w', 'h');
    case Interpreter => OnlyIn(g, Interpreter, 'r', 'p');
    case ChildFriendly => OnlyIn(g, ChildFriendly, 'l', 'y');
    case SeniorTransport => OnlyIn(g, SeniorTransport, 's', 'p');
  }

  // The key pair of one feature, ruled out of the other three names one name at a time.
  lemma OnlyIn(g: Feature, f: Feature, a: char, b: char)
    requires (f, a, b) in {(Wheelchair, 'w', 'h'), (Interpreter, 'r', 'p'), (ChildFriendly, 'l', 'y'), (SeniorTransport, 's', 'p')}
    ensures HasPair(Name(g), a, b) ==> g == f
  {
  }

  /** The cell names exactly the checked features: each occurs in it exactly when its box is checked. */
  lemma EncodedContains(b: Checkboxes, f: Feature)
    ensures Contains(Encoded(b), Name(f)) <==> IsChecked(b, f)
  {
    var fs := Checked(b);
    var names := Names(fs);
    if IsChecked(b, f) {
      assert f in fs;
      var k :| 0 <= k < |fs| && fs[k] == f;
      JoinContainsPart(names, ",", k);
    }
    if Contains(Encoded(b), Name(f)) {
      KeyPairIsDistinctive(f, f);
      var a, c := Name(f)[KeyPos(f)], Name(f)[KeyPos(f) + 1];
      PairOfSubstring(Encoded(b), Name(f), KeyPos(f));
      assert "," == [','];
      PairInJoin(names, ',', a, c);
      var k :| 0 <= k < |names| && HasPair(names[k], a, c);
      KeyPairIsDistinctive(f, fs[k]);
      assert fs[k] in fs;
    }
  }

  /** The cell is empty exactly when no box is checked. */
  lemma EncodedEmpty(b: Checkboxes)
    ensures Encoded(b) == "" <==> b == Checkboxes(false, false, false, false)
  {
    var fs := Checked(b);
    if fs != [] {
      assert fs[0] in fs;
      EncodedContains(b, fs[0]);
      assert |Name(fs[0])| > 0;
    } else {
      assert !IsChecked(b, Wheelchair) && !IsChecked(b, Interpreter);
      assert !IsChecked(b, ChildFriendly) && !IsChecked(b, SeniorTransport);
    }
  }

  /**
   * Round trip: the icons read back from a stored cell are the icons of the
   * checked boxes, in the same order. pandas reads an empty cell back as
   * NaN, which gives no icons, as an empty selection should.
   */
  lemma IconsOfEncoded(b: Checkboxes)
    ensures Found(Encoded(b)) == Checked(b)
    ensures var stored := if Encoded(b) == "" then None else Some(Encoded(b));
      Join(Icons(FoundIn(stored)), " ") == Join(Icons(Checked(b)), " ")
  {
    EncodedContains(b, Wheelchair);
    EncodedContains(b, Interpreter);
    EncodedContains(b, ChildFriendly);
    EncodedContains(b, SeniorTransport);
    if Encoded(b) == "" {
      EncodedEmpty(b);
      assert Checked(b) == [];
    }
  }
}
