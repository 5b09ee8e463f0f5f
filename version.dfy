/**
 * version.py: the pre-filled coordinates of the report form, report rows
 * stored as entered with their image file name, and where their markers
 * are drawn. The popup is `Reports.Popup`.
 */
module Version {
  import opened Wrappers
  import opened PyText
  import opened Geometry
  import opened Reports

  /** The value a number input is pre-filled with from one field: a null is passed on as `None`. */
  function FieldValue(f: Field): (v: Option<real>)
    ensures v.Some? <==> f.Value?
    ensures f.Value? ==> v.value == f.x
  {
    match f
    case Value(x) => Some(x)
    case _ => None
  }

  /**
   * The form's starting coordinates: the widget's values whenever both keys
   * are present (even when null), and (34.0, -79.0) otherwise.
   */
  function InitialCoords(loc: Option<Location>): (r: (Option<real>, Option<real>))
    ensures (loc.None? || loc.value.latitude.Missing? || loc.value.longitude.Missing?)
      ==> r == (Some(34.0), Some(-79.0))
    ensures (loc.Some? && !loc.value.latitude.Missing? && !loc.value.longitude.Missing?)
      ==> r == (FieldValue(loc.value.latitude), FieldValue(loc.value.longitude))
  {
    match loc
    case Some(Location(lat, lon)) =>
      if lat.Missing? || lon.Missing? then (Some(34.0), Some(-79.0)) else (FieldValue(lat), FieldValue(lon))
    case None => (Some(34.0), Some(-79.0))
  }

  /** `images/{date}_{lat}_{lon}.jpg`: the name the uploaded image is written under. */
  function ImagePath(date: string, lat: real, lon: real, fmt: NumberText): (p: string)
    ensures "images/" <= p && |p| >= 11 && p[|p| - 4..] == ".jpg"
  {
    "images/" + Underscored(date, fmt(lat), fmt(lon)) + ".jpg"
  }

  /** The row appended on submit: coordinates as entered, the image path or `""` without an upload. */
  function Submit(lat: real, lon: real, date: string, description: string, uploaded: bool, fmt: NumberText): (r: Report)
    ensures r.lat == lat && r.lon == lon && r.date == date && r.description == description
    ensures r.image == Some(if uploaded then ImagePath(date, lat, lon, fmt) else "")
  {
    Report(lat, lon, date, description, Some(if uploaded then ImagePath(date, lat, lon, fmt) else ""))
  }

  /** Where version.py:93 and version.py:115 draw a report marker: the stored longitude negated. */
  function MarkerAsWritten(r: Report): Coord
  {
    Mirror(Coord(r.lat, r.lon))
  }

  /** Where a report marker belongs, since the longitude is stored as entered. */
  function Marker(r: Report): Coord
  {
    Coord(r.lat, r.lon)
  }

  /**
   * A report submitted with the form's default coordinates (34.0, -79.0) is
   * drawn at longitude +79.0; in general every report off the prime
   * meridian is drawn mirrored.
   */
  lemma DefaultMarkerMirrored(date: string, description: string, uploaded: bool, fmt: NumberText)
    ensures var (lat, lon) := InitialCoords(None);
      && lat == Some(34.0) && lon == Some(-79.0)
      && MarkerAsWritten(Submit(lat.value, lon.value, date, description, uploaded, fmt)) == Coord(34.0, 79.0)
    ensures forall lat: real, lon: real :: lon != 0.0 ==>
      MarkerAsWritten(Submit(lat, lon, date, description, uploaded, fmt)) != Coord(lat, lon)
  {
  }

  /** Drawn at the stored longitude, a submitted report appears at the coordinates entered. */
  lemma MarkerShowsEntered(lat: real, lon: real, date: string, description: string, uploaded: bool, fmt: NumberText)
    ensures Marker(Submit(lat, lon, date, description, uploaded, fmt)) == Coord(lat, lon)
  {
  }

  /**
   * The popup of a submitted report: without an upload it is exactly the
   * three text lines; with one it carries the image exactly when the file
   * under the image path exists. Either way its coordinate line shows the
   * coordinates entered.
   */
  lemma SubmittedPopup(lat: real, lon: real, date: string, description: string, uploaded: bool,
                       fmt: NumberText, fileExists: string -> bool, encode: string -> string)
    ensures var r := Submit(lat, lon, date, description, uploaded, fmt);
      var p := Popup(r, fmt, fileExists, encode);
      && (!uploaded ==> p == PopupText(r, fmt))
      && (uploaded ==> (|PopupText(r, fmt)| < |p| <==> fileExists(ImagePath(date, lat, lon, fmt))))
      && Contains(p, CoordinateText(fmt(lat), fmt(lon)))
  {
    var r := Submit(lat, lon, date, description, uploaded, fmt);
    PopupShowsStoredCoordinates(r, fmt, fileExists, encode);
  }

  /**
   * An image name determines the date text and the coordinates' text, as
   * long as the date and the latitude text contain no underscore.
   */
  lemma ImagePathInjective(d: string, lat: real, lon: real, d': string, lat': real, lon': real, fmt: NumberText)
    requires '_' !in d && '_' !in fmt(lat) && '_' !in d' && '_' !in fmt(lat')
    requires ImagePath(d, lat, lon, fmt) == ImagePath(d', lat', lon', fmt)
    ensures d == d' && fmt(lat) == fmt(lat') && fmt(lon) == fmt(lon')
  {
    StripAffixes("images/", Underscored(d, fmt(lat), fmt(lon)), Underscored(d', fmt(lat'), fmt(lon')), ".jpg");
    UnderscoredInjective(d, fmt(lat), fmt(lon), d', fmt(lat'), fmt(lon'));
  }
}
